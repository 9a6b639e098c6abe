/** The name tables of `MyAccessibilityService` and the parsing of the
    "start-end" arguments. */
module ActionTables {
  import opened Wrappers

  /** The standard node actions `getAccessibilityNodeInfoActionId` knows; the
      platform's integer id of each is abstracted to the constructor. */
  datatype StandardAction =
    | AccessibilityFocus | ClearFocus | ClearSelection | Click | Collapse | ContextClick
    | Copy | Cut | Dismiss | Expand | Focus | ImeEnter | LongClick | NextHtmlElement
    | PageDown | PageLeft | PageRight | PageUp | Paste | ScrollBackward | ScrollForward
    | ScrollToPosition | Select | SetSelection | SetText | ShowOnScreen

  /** The name under which each standard action is requested. */
  function ActionName(a: StandardAction): string
  {
    match a
    case AccessibilityFocus => "ACTION_ACCESSIBILITY_FOCUS"
    case ClearFocus => "ACTION_CLEAR_FOCUS"
    case ClearSelection => "ACTION_CLEAR_SELECTION"
    case Click => "ACTION_CLICK"
    case Collapse => "ACTION_COLLAPSE"
    case ContextClick => "ACTION_CONTEXT_CLICK"
    case Copy => "ACTION_COPY"
    case Cut => "ACTION_CUT"
    case Dismiss => "ACTION_DISMISS"
    case Expand => "ACTION_EXPAND"
    case Focus => "ACTION_FOCUS"
    case ImeEnter => "ACTION_IME_ENTER"
    case LongClick => "ACTION_LONG_CLICK"
    case NextHtmlElement => "ACTION_NEXT_HTML_ELEMENT"
    case PageDown => "ACTION_PAGE_DOWN"
    case PageLeft => "ACTION_PAGE_LEFT"
    case PageRight => "ACTION_PAGE_RIGHT"
    case PageUp => "ACTION_PAGE_UP"
    case Paste => "ACTION_PASTE"
    case ScrollBackward => "ACTION_SCROLL_BACKWARD"
    case ScrollForward => "ACTION_SCROLL_FORWARD"
    case ScrollToPosition => "ACTION_SCROLL_TO_POSITION"
    case Select => "ACTION_SELECT"
    case SetSelection => "ACTION_SET_SELECTION"
    case SetText => "ACTION_SET_TEXT"
    case ShowOnScreen => "ACTION_SHOW_ON_SCREEN"
  }

  /** `getAccessibilityNodeInfoActionId`: the action a name denotes, or null
      for any name outside the table (including the commented-out ones). A
      name the table knows is the name of the action it denotes. The source's
      single `when` lists the names alphabetically; it is written here as
      four consecutive groups (A to E, F to P, SCROLL, SE to SH), each
      falling through to the next, in source order. The grouping is not in
      the source: it only keeps each function's verification small. */
  function ActionId(name: string): (r: Option<StandardAction>)
    ensures r.Some? ==> ActionName(r.value) == name
  {
    match name
    case "ACTION_ACCESSIBILITY_FOCUS" => Some(AccessibilityFocus)
    case "ACTION_CLEAR_FOCUS" => Some(ClearFocus)
    case "ACTION_CLEAR_SELECTION" => Some(ClearSelection)
    case "ACTION_CLICK" => Some(Click)
    case "ACTION_COLLAPSE" => Some(Collapse)
    case "ACTION_CONTEXT_CLICK" => Some(ContextClick)
    case "ACTION_COPY" => Some(Copy)
    case "ACTION_CUT" => Some(Cut)
    case "ACTION_DISMISS" => Some(Dismiss)
    case "ACTION_EXPAND" => Some(Expand)
    case _ => ActionIdFromF(name)
  }

  /** The entries from ACTION_FOCUS to ACTION_PASTE. */
  function ActionIdFromF(name: string): (r: Option<StandardAction>)
    ensures r.Some? ==> ActionName(r.value) == name
  {
    match name
    case "ACTION_FOCUS" => Some(Focus)
    case "ACTION_IME_ENTER" => Some(ImeEnter)
    case "ACTION_LONG_CLICK" => Some(LongClick)
    case "ACTION_NEXT_HTML_ELEMENT" => Some(NextHtmlElement)
    case "ACTION_PAGE_DOWN" => Some(PageDown)
    case "ACTION_PAGE_LEFT" => Some(PageLeft)
    case "ACTION_PAGE_RIGHT" => Some(PageRight)
    case "ACTION_PAGE_UP" => Some(PageUp)
    case "ACTION_PASTE" => Some(Paste)
    case _ => ActionIdFromScroll(name)
  }

  /** The three ACTION_SCROLL entries. */
  function ActionIdFromScroll(name: string): (r: Option<StandardAction>)
    ensures r.Some? ==> ActionName(r.value) == name
  {
    match name
    case "ACTION_SCROLL_BACKWARD" => Some(ScrollBackward)
    case "ACTION_SCROLL_FORWARD" => Some(ScrollForward)
    case "ACTION_SCROLL_TO_POSITION" => Some(ScrollToPosition)
    case _ => ActionIdFromSelect(name)
  }

  /** The entries from ACTION_SELECT to ACTION_SHOW_ON_SCREEN. */
  function ActionIdFromSelect(name: string): (r: Option<StandardAction>)
    ensures r.Some? ==> ActionName(r.value) == name
  {
    match name
    case "ACTION_SELECT" => Some(Select)
    case "ACTION_SET_SELECTION" => Some(SetSelection)
    case "ACTION_SET_TEXT" => Some(SetText)
    case "ACTION_SHOW_ON_SCREEN" => Some(ShowOnScreen)
    case _ => None
  }

  /** The table is complete: every standard action's name denotes that
      action. With the soundness of `ActionId`, a name is known iff it is the
      name of a standard action. */
  lemma ActionIdInvertsActionName(a: StandardAction)
    ensures ActionId(ActionName(a)) == Some(a)
  {
    match a
    case AccessibilityFocus => assert ActionId("ACTION_ACCESSIBILITY_FOCUS") == Some(AccessibilityFocus);
    case ClearFocus => assert ActionId("ACTION_CLEAR_FOCUS") == Some(ClearFocus);
    case ClearSelection => assert ActionId("ACTION_CLEAR_SELECTION") == Some(ClearSelection);
    case Click => assert ActionId("ACTION_CLICK") == Some(Click);
    case Collapse => assert ActionId("ACTION_COLLAPSE") == Some(Collapse);
    case ContextClick => assert ActionId("ACTION_CONTEXT_CLICK") == Some(ContextClick);
    case Copy => assert ActionId("ACTION_COPY") == Some(Copy);
    case Cut => assert ActionId("ACTION_CUT") == Some(Cut);
    case Dismiss => assert ActionId("ACTION_DISMISS") == Some(Dismiss);
    case Expand => assert ActionId("ACTION_EXPAND") == Some(Expand);
    case Focus => assert ActionId("ACTION_FOCUS") == Some(Focus);
    case ImeEnter => assert ActionId("ACTION_IME_ENTER") == Some(ImeEnter);
    case LongClick => assert ActionId("ACTION_LONG_CLICK") == Some(LongClick);
    case NextHtmlElement => assert ActionId("ACTION_NEXT_HTML_ELEMENT") == Some(NextHtmlElement);
    case PageDown => assert ActionId("ACTION_PAGE_DOWN") == Some(PageDown);
    case PageLeft => assert ActionId("ACTION_PAGE_LEFT") == Some(PageLeft);
    case PageRight => assert ActionId("ACTION_PAGE_RIGHT") == Some(PageRight);
    case PageUp => assert ActionId("ACTION_PAGE_UP") == Some(PageUp);
    case Paste => assert ActionId("ACTION_PASTE") == Some(Paste);
    case ScrollBackward => assert ActionId("ACTION_SCROLL_BACKWARD") == Some(ScrollBackward);
    case ScrollForward => assert ActionId("ACTION_SCROLL_FORWARD") == Some(ScrollForward);
    case ScrollToPosition => assert ActionId("ACTION_SCROLL_TO_POSITION") == Some(ScrollToPosition);
    case Select => assert ActionId("ACTION_SELECT") == Some(Select);
    case SetSelection => assert ActionId("ACTION_SET_SELECTION") == Some(SetSelection);
    case SetText => assert ActionId("ACTION_SET_TEXT") == Some(SetText);
    case ShowOnScreen => assert ActionId("ACTION_SHOW_ON_SCREEN") == Some(ShowOnScreen);
  }

  /** Names that are commented out of the table are unknown. */
  lemma CommentedOutNamesUnknown()
    ensures ActionId("ACTION_SET_PROGRESS") == None
    ensures ActionId("ACTION_MOVE_WINDOW") == None
    ensures ActionId("ACTION_NEXT_AT_MOVEMENT_GRANULARITY") == None
    ensures ActionId("ACTION_PREVIOUS_AT_MOVEMENT_GRANULARITY") == None
    ensures ActionId("ACTION_PREVIOUS_HTML_ELEMENT") == None
  {
  }

  // The `AccessibilityService.GLOBAL_ACTION_*` constants of the Android platform.
  const GLOBAL_ACTION_BACK: int := 1
  const GLOBAL_ACTION_HOME: int := 2
  const GLOBAL_ACTION_RECENTS: int := 3
  const GLOBAL_ACTION_NOTIFICATIONS: int := 4
  const GLOBAL_ACTION_TAKE_SCREENSHOT: int := 9
  const GLOBAL_ACTION_DISMISS_NOTIFICATION_SHADE: int := 15

  const UnknownGlobalAction: string := "Unknown Global Action"

  /** Where a navigation type sends `performNavigation`. */
  datatype NavigationTarget = GlobalAction(id: int) | LaunchApp

  /** The `when` of `performNavigation`: six global-action names and
      "open_app"; null for anything else (which throws). */
  function NavigationTargetOf(navigationType: string): (r: Option<NavigationTarget>)
    ensures r == Some(LaunchApp) <==> navigationType == "open_app"
    ensures r.Some? && r.value.GlobalAction? ==> r.value.id in NavigableGlobalActions
  {
    match navigationType
    case "GLOBAL_ACTION_BACK" => Some(GlobalAction(GLOBAL_ACTION_BACK))
    case "GLOBAL_ACTION_HOME" => Some(GlobalAction(GLOBAL_ACTION_HOME))
    case "GLOBAL_ACTION_NOTIFICATIONS" => Some(GlobalAction(GLOBAL_ACTION_NOTIFICATIONS))
    case "GLOBAL_ACTION_RECENTS" => Some(GlobalAction(GLOBAL_ACTION_RECENTS))
    case "GLOBAL_ACTION_DISMISS_NOTIFICATION_SHADE" => Some(GlobalAction(GLOBAL_ACTION_DISMISS_NOTIFICATION_SHADE))
    case "GLOBAL_ACTION_TAKE_SCREENSHOT" => Some(GlobalAction(GLOBAL_ACTION_TAKE_SCREENSHOT))
    case "open_app" => Some(LaunchApp)
    case _ => None
  }

  /** `getGlobalActionName`, on the action's id. */
  function GlobalActionName(id: int): (name: string)
    ensures name != UnknownGlobalAction ==> NavigationTargetOf(name) == Some(GlobalAction(id))
  {
    if id == GLOBAL_ACTION_BACK then "GLOBAL_ACTION_BACK"
    else if id == GLOBAL_ACTION_HOME then "GLOBAL_ACTION_HOME"
    else if id == GLOBAL_ACTION_NOTIFICATIONS then "GLOBAL_ACTION_NOTIFICATIONS"
    else if id == GLOBAL_ACTION_RECENTS then "GLOBAL_ACTION_RECENTS"
    else if id == GLOBAL_ACTION_DISMISS_NOTIFICATION_SHADE then "GLOBAL_ACTION_DISMISS_NOTIFICATION_SHADE"
    else if id == GLOBAL_ACTION_TAKE_SCREENSHOT then "GLOBAL_ACTION_TAKE_SCREENSHOT"
    else UnknownGlobalAction
  }

  /** The ids of the six global actions the navigation table reaches. */
  const NavigableGlobalActions: set<int> :=
    {GLOBAL_ACTION_BACK, GLOBAL_ACTION_HOME, GLOBAL_ACTION_NOTIFICATIONS, GLOBAL_ACTION_RECENTS,
     GLOBAL_ACTION_DISMISS_NOTIFICATION_SHADE, GLOBAL_ACTION_TAKE_SCREENSHOT}

  /** `getGlobalActionName` inverts the navigation table: every name the
      table maps to a global action is the name of that action, and an id
      has a name exactly when the table can reach it. */
  lemma GlobalActionNameInvertsNavigation(navigationType: string, id: int)
    ensures NavigationTargetOf(navigationType) == Some(GlobalAction(id)) ==> GlobalActionName(id) == navigationType
    ensures GlobalActionName(id) == UnknownGlobalAction <==> id !in NavigableGlobalActions
  {
  }

  /** Kotlin's `String.split("-")`: all pieces, empty ones included. */
  function Split(s: string, sep: char): (pieces: seq<string>)
    ensures |pieces| >= 1
    ensures forall i :: 0 <= i < |pieces| ==> sep !in pieces[i]
    decreases |s|
  {
    if s == [] then [""]
    else
      var rest := Split(s[1..], sep);
      if s[0] == sep then [""] + rest else [[s[0]] + rest[0]] + rest[1..]
  }

  /** The pieces joined with the separator give back the string. */
  function Join(pieces: seq<string>, sep: char): string
    requires |pieces| >= 1
    decreases |pieces|
  {
    if |pieces| == 1 then pieces[0] else pieces[0] + [sep] + Join(pieces[1..], sep)
  }

  lemma {:induction false} SplitJoin(s: string, sep: char)
    ensures Join(Split(s, sep), sep) == s
    decreases |s|
  {
    if s != [] {
      var rest := Split(s[1..], sep);
      SplitJoin(s[1..], sep);
      if s[0] != sep {
        if |rest| == 1 {
        } else {
          assert Join(rest, sep) == rest[0] + [sep] + Join(rest[1..], sep);
        }
      }
    }
  }

  /** Splitting a separator-free string followed by the separator and more. */
  lemma {:induction false} SplitPrefix(a: string, sep: char, b: string)
    requires sep !in a
    ensures Split(a + [sep] + b, sep) == [a] + Split(b, sep)
    decreases |a|
  {
    if a == [] {
      assert (a + [sep] + b)[1..] == b;
    } else {
      assert (a + [sep] + b)[1..] == a[1..] + [sep] + b;
      SplitPrefix(a[1..], sep, b);
      assert [a[0]] + a[1..] == a;
    }
  }

  lemma {:induction false} SplitNoSeparator(a: string, sep: char)
    requires sep !in a
    ensures Split(a, sep) == [a]
    decreases |a|
  {
    if a != [] {
      SplitNoSeparator(a[1..], sep);
      assert [a[0]] + a[1..] == a;
    }
  }

  predicate IsDigit(c: char) { '0' <= c <= '9' }

  predicate AllDigits(s: string)
  {
    forall i :: 0 <= i < |s| ==> IsDigit(s[i])
  }

  function DigitValue(c: char): nat
    requires IsDigit(c)
  {
    c as int - '0' as int
  }

  /** The value of a string of decimal digits, read left to right. */
  function DigitsValue(s: string): nat
    requires AllDigits(s)
    decreases |s|
  {
    if s == [] then 0 else DigitsValue(s[..|s| - 1]) * 10 + DigitValue(s[|s| - 1])
  }

  const MinInt32: int := -0x8000_0000
  const MaxInt32: int := 0x7FFF_FFFF

  /** Kotlin's `String.toInt()`: an optional sign, at least one decimal digit,
      and a value that fits an `Int`; anything else throws
      `NumberFormatException` (null here). */
  function ParseInt(s: string): (r: Option<Int32>)
    ensures r.Some? ==> s != [] && (s[0] == '-' || s[0] == '+' || IsDigit(s[0]))
                        && forall i :: 1 <= i < |s| ==> IsDigit(s[i])
    ensures r.Some? ==> |s| >= 2 || (|s| == 1 && IsDigit(s[0]))
    ensures r.Some? && r.value < 0 ==> s[0] == '-'
    ensures s != [] && AllDigits(s) ==>
              r == if DigitsValue(s) <= MaxInt32 then Some(DigitsValue(s)) else None
    ensures |s| >= 2 && s[0] == '+' && AllDigits(s[1..]) ==>
              r == if DigitsValue(s[1..]) <= MaxInt32 then Some(DigitsValue(s[1..])) else None
    ensures |s| >= 2 && s[0] == '-' && AllDigits(s[1..]) ==>
              r == if DigitsValue(s[1..]) <= MaxInt32 + 1 then Some(-(DigitsValue(s[1..]) as int)) else None
  {
    if s == [] then None
    else
      var negative := s[0] == '-';
      var digits := if s[0] == '-' || s[0] == '+' then s[1..] else s;
      if digits == [] || !AllDigits(digits) then None
      else
        var magnitude: int := DigitsValue(digits);
        var v := if negative then -magnitude else magnitude;
        if MinInt32 <= v <= MaxInt32 then Some(v) else None
  }

  /** Decimal text of a natural number, without sign or leading zeros. */
  function NatToString(n: nat): (s: string)
    ensures |s| >= 1 && AllDigits(s)
    decreases n
  {
    if n < 10 then [('0' as int + n) as char]
    else NatToString(n / 10) + [('0' as int + n % 10) as char]
  }

  lemma {:induction false} NatToStringValue(n: nat)
    ensures DigitsValue(NatToString(n)) == n
    decreases n
  {
    var s := NatToString(n);
    if n >= 10 {
      NatToStringValue(n / 10);
      assert s[..|s| - 1] == NatToString(n / 10);
    }
  }

  /** Round trip: `toInt` reads back the decimal text of any non-negative Int. */
  lemma ParseIntRoundTrip(n: Int32)
    requires n >= 0
    ensures ParseInt(NatToString(n)) == Some(n)
  {
    NatToStringValue(n);
  }

  /** Round trip with a sign: `toInt` reads back "-" followed by the decimal
      text of the magnitude of any negative Int, down to Int.MIN_VALUE. */
  lemma ParseIntRoundTripNegative(n: Int32)
    requires n < 0
    ensures ParseInt("-" + NatToString(-(n as int))) == Some(n)
  {
    var m: nat := -(n as int);
    var t := NatToString(m);
    NatToStringValue(m);
    assert ("-" + t)[1..] == t;
  }

  /** The exceptions the executor can raise (all caught in `executeAction`). */
  datatype Failure =
    | IllegalArgument(message: string)
    | ElementNotFound
    | AppNotFound(packageName: string)
    | NumberFormat(input: string)
    | IndexOutOfBounds(index: int)

  /** The two integers of a "start-end" or "row-column" argument, read as
      `split("-")[0].toInt()` and then `split("-")[1].toInt()`. */
  function ParsePair(argument: string): (r: Result<(Int32, Int32), Failure>)
    ensures r.Success? ==>
              && |Split(argument, '-')| >= 2
              && ParseInt(Split(argument, '-')[0]) == Some(r.value.0)
              && ParseInt(Split(argument, '-')[1]) == Some(r.value.1)
    ensures var p := Split(argument, '-');
      && (ParseInt(p[0]).None? ==> r == Failure(NumberFormat(p[0])))
      && (ParseInt(p[0]).Some? && |p| < 2 ==> r == Failure(IndexOutOfBounds(1)))
      && (ParseInt(p[0]).Some? && |p| >= 2 && ParseInt(p[1]).None? ==> r == Failure(NumberFormat(p[1])))
      && (|p| >= 2 && ParseInt(p[0]).Some? && ParseInt(p[1]).Some? ==> r.Success?)
  {
    var pieces := Split(argument, '-');
    match ParseInt(pieces[0])
    case None => Failure(NumberFormat(pieces[0]))
    case Some(first) =>
      if |pieces| < 2 then Failure(IndexOutOfBounds(1))
      else
        match ParseInt(pieces[1])
        case None => Failure(NumberFormat(pieces[1]))
        case Some(second) => Success((first, second))
  }

  /** Non-negative integers written as "a-b" parse back to (a, b). */
  lemma ParsePairOfNaturals(a: Int32, b: Int32)
    requires a >= 0 && b >= 0
    ensures ParsePair(NatToString(a) + "-" + NatToString(b)) == Success((a, b))
  {
    var sa, sb := NatToString(a), NatToString(b);
    assert '-' !in sa && '-' !in sb;
    SplitPrefix(sa, '-', sb);
    SplitNoSeparator(sb, '-');
    ParseIntRoundTrip(a);
    ParseIntRoundTrip(b);
  }

  /** Any two `-`-free fields `toInt` accepts, such as "+3" and "07", parse
      to their values, whatever follows a further "-": "+3-07" and "3-7-9"
      both give (3, 7). */
  lemma ParsePairOfPieces(sa: string, sb: string, rest: string)
    requires '-' !in sa && '-' !in sb
    requires ParseInt(sa).Some? && ParseInt(sb).Some?
    ensures ParsePair(sa + "-" + sb) == Success((ParseInt(sa).value, ParseInt(sb).value))
    ensures ParsePair(sa + "-" + sb + "-" + rest) == Success((ParseInt(sa).value, ParseInt(sb).value))
  {
    SplitPrefix(sa, '-', sb);
    SplitNoSeparator(sb, '-');
    assert sa + "-" + sb + "-" + rest == sa + ['-'] + (sb + ['-'] + rest);
    SplitPrefix(sa, '-', sb + ['-'] + rest);
    SplitPrefix(sb, '-', rest);
  }

  /** "3-7" gives (3, 7); "abc" fails in `toInt`; "3" has no second field. */
  lemma ParsePairExamples()
    ensures ParsePair("3-7") == Success((3, 7))
    ensures ParsePair("abc") == Failure(NumberFormat("abc"))
    ensures ParsePair("3") == Failure(IndexOutOfBounds(1))
  {
    ParsePairOfNaturals(3, 7);
    assert NatToString(3) + "-" + NatToString(7) == "3-7";
    SplitNoSeparator("abc", '-');
    assert !AllDigits("abc") by {
      assert !IsDigit("abc"[0]);
    }
    SplitNoSeparator("3", '-');
  }
}
