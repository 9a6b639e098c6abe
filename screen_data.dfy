/** The screen snapshot records (`ScreenData`, `ViewData`) and the custom
    serializer for a view's bounds (`RectSerializer`). */
module ScreenModel {
  import opened Wrappers

  /** `android.graphics.Rect`: four pixel coordinates. */
  datatype Rect = Rect(left: Int32, top: Int32, right: Int32, bottom: Int32)

  /** The coordinate a serial descriptor element index stands for:
      0 left, 1 top, 2 right, 3 bottom. */
  function Coordinate(r: Rect, index: nat): Int32
    requires index < 4
  {
    match index
    case 0 => r.left
    case 1 => r.top
    case 2 => r.right
    case 3 => r.bottom
  }

  /** One element of an encoded structure: the element index the encoder
      wrote (or the decoder reports) and the integer read at that index. */
  datatype Element = Element(index: int, value: Int32)

  /** `CompositeDecoder.DECODE_DONE`: the index a decoder reports once the
      structure has no more elements. The end of the element sequence
      reports it too. */
  const DECODE_DONE: int := -1

  /** The exception `error("Unexpected index: ...")` raises. */
  datatype DecodeError = UnexpectedIndex(index: int)

  /** `RectSerializer.serialize`: one integer element per coordinate. */
  function Serialize(r: Rect): (s: seq<Element>)
    ensures |s| == 4
    ensures forall k :: 0 <= k < 4 ==> s[k].index == k && s[k].value == Coordinate(r, k)
  {
    [Element(0, r.left), Element(1, r.top), Element(2, r.right), Element(3, r.bottom)]
  }

  /** Specification of `deserialize`: the decoder loop started in the state
      whose four local variables hold `acc`, fed the elements `s`. */
  function DecodeFrom(s: seq<Element>, acc: Rect): Result<Rect, DecodeError>
    decreases |s|
  {
    if s == [] then Success(acc)
    else
      var e := s[0];
      if e.index == 0 then DecodeFrom(s[1..], acc.(left := e.value))
      else if e.index == 1 then DecodeFrom(s[1..], acc.(top := e.value))
      else if e.index == 2 then DecodeFrom(s[1..], acc.(right := e.value))
      else if e.index == 3 then DecodeFrom(s[1..], acc.(bottom := e.value))
      else if e.index == DECODE_DONE then Success(acc)
      else Failure(UnexpectedIndex(e.index))
  }

  /** The four local variables start at 0. */
  const Origin: Rect := Rect(0, 0, 0, 0)

  /** `RectSerializer.deserialize`: the `while (true)` loop over the element
      indices the decoder reports, one local variable per coordinate. */
  method Deserialize(s: seq<Element>) returns (r: Result<Rect, DecodeError>)
    ensures r == DecodeFrom(s, Origin)
  {
    var left, top, right, bottom := 0, 0, 0, 0;
    var i := 0;
    while true
      invariant 0 <= i <= |s|
      invariant DecodeFrom(s, Origin) == DecodeFrom(s[i..], Rect(left, top, right, bottom))
      decreases |s| - i
    {
      var index := if i == |s| then DECODE_DONE else s[i].index;
      if index == 0 {
        left := s[i].value;
      } else if index == 1 {
        top := s[i].value;
      } else if index == 2 {
        right := s[i].value;
      } else if index == 3 {
        bottom := s[i].value;
      } else if index == DECODE_DONE {
        break;
      } else {
        return Failure(UnexpectedIndex(index));
      }
      i := i + 1;
    }
    r := Success(Rect(left, top, right, bottom));
  }

  /** The value that the last element with index `k` in `s` carries, or `d`
      when no element has index `k`. */
  function LastValue(s: seq<Element>, k: int, d: Int32): Int32
    decreases |s|
  {
    if s == [] then d else LastValue(s[1..], k, if s[0].index == k then s[0].value else d)
  }

  /** Every element index lies in 0..3. */
  predicate CoordinateIndices(s: seq<Element>)
  {
    forall j :: 0 <= j < |s| ==> 0 <= s[j].index < 4
  }

  /** LastValue names the last element with index `k`. */
  lemma {:induction false} LastValueIsLastOccurrence(s: seq<Element>, k: int, d: Int32, j: nat)
    requires j < |s| && s[j].index == k
    requires forall i :: j < i < |s| ==> s[i].index != k
    ensures LastValue(s, k, d) == s[j].value
    decreases |s|
  {
    if j == 0 {
      LastValueAbsent(s[1..], k, s[0].value);
    } else {
      LastValueIsLastOccurrence(s[1..], k, if s[0].index == k then s[0].value else d, j - 1);
    }
  }

  /** With no element of index `k`, LastValue is the default. */
  lemma {:induction false} LastValueAbsent(s: seq<Element>, k: int, d: Int32)
    requires forall i :: 0 <= i < |s| ==> s[i].index != k
    ensures LastValue(s, k, d) == d
    decreases |s|
  {
    if s != [] {
      LastValueAbsent(s[1..], k, d);
    }
  }

  /** Decoding elements whose indices are all coordinates sets each
      coordinate to the value of the last element with its index, and leaves
      it at its starting value when no such element appears. */
  lemma {:induction false} DecodeFromLastWins(s: seq<Element>, acc: Rect)
    requires CoordinateIndices(s)
    ensures DecodeFrom(s, acc) == Success(Rect(LastValue(s, 0, acc.left), LastValue(s, 1, acc.top),
                                               LastValue(s, 2, acc.right), LastValue(s, 3, acc.bottom)))
    decreases |s|
  {
    if s != [] {
      var e := s[0];
      var acc' := if e.index == 0 then acc.(left := e.value)
                  else if e.index == 1 then acc.(top := e.value)
                  else if e.index == 2 then acc.(right := e.value)
                  else acc.(bottom := e.value);
      DecodeFromLastWins(s[1..], acc');
    }
  }

  /** `deserialize` on elements in any order: each coordinate is the value of
      the last element carrying its index, and 0 when none does. */
  lemma DeserializeLastWins(s: seq<Element>)
    requires CoordinateIndices(s)
    ensures DecodeFrom(s, Origin) == Success(Rect(LastValue(s, 0, 0), LastValue(s, 1, 0),
                                                  LastValue(s, 2, 0), LastValue(s, 3, 0)))
  {
    DecodeFromLastWins(s, Origin);
  }

  /** A coordinate whose index never appears decodes to 0. */
  lemma MissingCoordinateIsZero(s: seq<Element>, k: nat)
    requires CoordinateIndices(s) && k < 4
    requires forall i :: 0 <= i < |s| ==> s[i].index != k
    ensures DecodeFrom(s, Origin).Success? && Coordinate(DecodeFrom(s, Origin).value, k) == 0
  {
    DeserializeLastWins(s);
    LastValueAbsent(s, k, 0);
  }

  /** A repeated index overwrites: the coordinate is the later element's value. */
  lemma RepeatedIndexLastWins(s: seq<Element>, j: nat)
    requires CoordinateIndices(s) && j < |s|
    requires forall i :: j < i < |s| ==> s[i].index != s[j].index
    ensures DecodeFrom(s, Origin).Success?
    ensures Coordinate(DecodeFrom(s, Origin).value, s[j].index) == s[j].value
  {
    DeserializeLastWins(s);
    LastValueIsLastOccurrence(s, s[j].index, 0, j);
  }

  lemma {:induction false} LastValueSwap(a: seq<Element>, x: Element, y: Element, b: seq<Element>, k: int, d: Int32)
    requires x.index != y.index
    ensures LastValue(a + [x, y] + b, k, d) == LastValue(a + [y, x] + b, k, d)
    decreases |a|
  {
    if a == [] {
      assert ([x, y] + b)[1..] == [y] + b;
      assert ([x, y] + b)[1..][1..] == b;
      assert ([y, x] + b)[1..] == [x] + b;
      assert ([y, x] + b)[1..][1..] == b;
    } else {
      assert (a + [x, y] + b)[1..] == a[1..] + [x, y] + b;
      assert (a + [y, x] + b)[1..] == a[1..] + [y, x] + b;
      LastValueSwap(a[1..], x, y, b, k, if a[0].index == k then a[0].value else d);
    }
  }

  /** Order independence: exchanging two adjacent elements with different
      indices does not change the decoded rectangle. */
  lemma DeserializeSwapIndependent(a: seq<Element>, x: Element, y: Element, b: seq<Element>)
    requires CoordinateIndices(a + [x, y] + b)
    requires x.index != y.index
    ensures DecodeFrom(a + [x, y] + b, Origin) == DecodeFrom(a + [y, x] + b, Origin)
  {
    var s, t := a + [x, y] + b, a + [y, x] + b;
    assert CoordinateIndices(t) by {
      forall j | 0 <= j < |t| ensures 0 <= t[j].index < 4 {
        if j == |a| { assert t[j] == s[j + 1]; }
        else if j == |a| + 1 { assert t[j] == s[j - 1]; }
        else { assert t[j] == s[j]; }
      }
    }
    DeserializeLastWins(s);
    DeserializeLastWins(t);
    LastValueSwap(a, x, y, b, 0, 0);
    LastValueSwap(a, x, y, b, 1, 0);
    LastValueSwap(a, x, y, b, 2, 0);
    LastValueSwap(a, x, y, b, 3, 0);
  }

  /** Round trip: deserializing what `serialize` wrote gives back the rectangle. */
  lemma SerializeRoundTrip(r: Rect)
    ensures DecodeFrom(Serialize(r), Origin) == Success(r)
  {
    var s := Serialize(r);
    DeserializeLastWins(s);
    forall k | 0 <= k < 4 ensures LastValue(s, k, 0) == Coordinate(r, k) {
      LastValueIsLastOccurrence(s, k, 0, k);
    }
  }

  /** An element index other than 0..3 and DECODE_DONE, reached before any
      DECODE_DONE, makes `deserialize` fail with that index. */
  lemma {:induction false} UnexpectedIndexFails(s: seq<Element>, acc: Rect, j: nat)
    requires j < |s| && CoordinateIndices(s[..j])
    requires !(0 <= s[j].index < 4) && s[j].index != DECODE_DONE
    ensures DecodeFrom(s, acc) == Failure(UnexpectedIndex(s[j].index))
    decreases j
  {
    if j > 0 {
      assert 0 <= s[..j][0].index < 4;
      var e := s[0];
      var acc' := if e.index == 0 then acc.(left := e.value)
                  else if e.index == 1 then acc.(top := e.value)
                  else if e.index == 2 then acc.(right := e.value)
                  else acc.(bottom := e.value);
      assert s[1..][..j - 1] == s[..j][1..];
      UnexpectedIndexFails(s[1..], acc', j - 1);
    }
  }

  /** Elements after DECODE_DONE are never read. */
  lemma {:induction false} DecodeStopsAtDone(s: seq<Element>, t: seq<Element>, acc: Rect, v: Int32)
    requires CoordinateIndices(s)
    ensures DecodeFrom(s + [Element(DECODE_DONE, v)] + t, acc) == DecodeFrom(s, acc)
    decreases |s|
  {
    if s != [] {
      var e := s[0];
      var acc' := if e.index == 0 then acc.(left := e.value)
                  else if e.index == 1 then acc.(top := e.value)
                  else if e.index == 2 then acc.(right := e.value)
                  else acc.(bottom := e.value);
      assert (s + [Element(DECODE_DONE, v)] + t)[1..] == s[1..] + [Element(DECODE_DONE, v)] + t;
      DecodeStopsAtDone(s[1..], t, acc', v);
    }
  }

  /** `ViewData`: one flattened node. `isVisible` is `@Transient`; the
      float-valued `rangeInfo` is not part of this model. */
  datatype ViewData = ViewData(
    text: Option<string> := None,
    className: Option<string> := None,
    bounds: Rect,
    contentDescription: Option<string> := None,
    packageName: Option<string> := None,
    windowId: Int32 := -1,
    viewId: Option<string> := None,
    hintText: Option<string> := None,
    isVisible: bool := false,
    actionList: seq<string>,
    inputType: Int32,
    labelFor: Option<string> := None,
    stateDescription: Option<string> := None,
    tooltipText: Option<string> := None,
    uniqueId: Int32)

  /** The fields of a ViewData that the serialization plugin writes: all
      but the transient `isVisible`. */
  datatype ViewRecord = ViewRecord(
    text: Option<string>,
    className: Option<string>,
    bounds: Rect,
    contentDescription: Option<string>,
    packageName: Option<string>,
    windowId: Int32,
    viewId: Option<string>,
    hintText: Option<string>,
    actionList: seq<string>,
    inputType: Int32,
    labelFor: Option<string>,
    stateDescription: Option<string>,
    tooltipText: Option<string>,
    uniqueId: Int32)

  /** `ScreenData`: the flattened views in document order. */
  datatype ScreenData = ScreenData(views: seq<ViewData>)

  function Encode(v: ViewData): (w: ViewRecord)
    ensures w.bounds == v.bounds && w.uniqueId == v.uniqueId && w.windowId == v.windowId
  {
    ViewRecord(v.text, v.className, v.bounds, v.contentDescription, v.packageName, v.windowId,
               v.viewId, v.hintText, v.actionList, v.inputType, v.labelFor, v.stateDescription,
               v.tooltipText, v.uniqueId)
  }

  /** Decoding gives the transient field its declared default. */
  function Decode(w: ViewRecord): (v: ViewData)
    ensures !v.isVisible
  {
    ViewData(w.text, w.className, w.bounds, w.contentDescription, w.packageName, w.windowId,
             w.viewId, w.hintText, false, w.actionList, w.inputType, w.labelFor,
             w.stateDescription, w.tooltipText, w.uniqueId)
  }

  /** `isVisible` never reaches the serialised form, and decoding it back
      restores every other field with `isVisible` at its default. */
  lemma TransientVisibility(v: ViewData, b: bool)
    ensures Encode(v.(isVisible := b)) == Encode(v)
    ensures Decode(Encode(v)) == v.(isVisible := false)
    ensures Encode(Decode(Encode(v))) == Encode(v)
  {
  }

  /** Constructor defaults: omitted nullable fields are null, `windowId` is -1
      and `isVisible` is false. */
  lemma ViewDataDefaults(bounds: Rect, actions: seq<string>, inputType: Int32, id: Int32)
    ensures var v := ViewData(bounds := bounds, actionList := actions, inputType := inputType, uniqueId := id);
      && v.windowId == -1 && !v.isVisible
      && v.text.None? && v.className.None? && v.contentDescription.None? && v.packageName.None?
      && v.viewId.None? && v.hintText.None? && v.labelFor.None? && v.stateDescription.None?
      && v.tooltipText.None?
      && v.bounds == bounds && v.actionList == actions && v.inputType == inputType && v.uniqueId == id
  {
  }
}
