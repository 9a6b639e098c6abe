/** `MyAccessibilityService.extractScreenData` and `traverseNode`: flattening
    the accessibility node tree of the active window into a ScreenData. */
module ScreenTraversal {
  import opened Wrappers
  import opened ScreenModel

  /** The attributes of an `AccessibilityNodeInfo` that `traverseNode` reads,
      already converted with `toString()`. `hashCode` is the object's hash,
      which the snapshot stores as its `uniqueId`. */
  datatype NodeInfo = NodeInfo(
    text: Option<string>,
    className: Option<string>,
    boundsInScreen: Rect,
    contentDescription: Option<string>,
    packageName: Option<string>,
    windowId: Int32,
    viewIdResourceName: Option<string>,
    hintText: Option<string>,
    actionList: seq<string>,
    inputType: Int32,
    labelFor: Option<string>,
    stateDescription: Option<string>,
    tooltipText: Option<string>,
    hashCode: Int32)

  /** A node of the accessibility tree; `getChild(i)` may return null. */
  datatype UiNode = UiNode(info: NodeInfo, children: seq<Option<UiNode>>)

  /** The ViewData that `traverseNode` builds for one node: every field is
      copied unchanged from the node's property of the same meaning (text,
      class name, description, package, window, hint, actions, input type,
      label, state, tooltip); the ensures name the ones the rest of the model
      relies on. */
  function ToViewData(info: NodeInfo): (v: ViewData)
    ensures v.bounds == info.boundsInScreen && v.uniqueId == info.hashCode
    ensures v.viewId == info.viewIdResourceName && !v.isVisible
  {
    ViewData(text := info.text, className := info.className, bounds := info.boundsInScreen,
             contentDescription := info.contentDescription, packageName := info.packageName,
             windowId := info.windowId, viewId := info.viewIdResourceName, hintText := info.hintText,
             actionList := info.actionList, inputType := info.inputType, labelFor := info.labelFor,
             stateDescription := info.stateDescription, tooltipText := info.tooltipText,
             uniqueId := info.hashCode)
  }

  /** The pre-order list of the non-null nodes of the tree rooted at `n`. */
  function PreOrder(n: UiNode): seq<ViewData>
    decreases n, |n.children| + 1
  {
    [ToViewData(n.info)] + ChildrenPreOrder(n, |n.children|)
  }

  /** The pre-order lists of the children 0..k-1 of `n`, null children skipped. */
  function ChildrenPreOrder(n: UiNode, k: nat): seq<ViewData>
    requires k <= |n.children|
    decreases n, k
  {
    if k == 0 then []
    else ChildrenPreOrder(n, k - 1) + ChildPreOrder(n, k - 1)
  }

  /** What child `i` contributes: nothing when `getChild(i)` is null. */
  function ChildPreOrder(n: UiNode, i: nat): seq<ViewData>
    requires i < |n.children|
    decreases n, 0
  {
    match n.children[i]
    case None => []
    case Some(c) => PreOrder(c)
  }

  /** The number of non-null nodes in the tree. */
  function Size(n: UiNode): nat
    decreases n, |n.children| + 1
  {
    1 + ChildrenSize(n, |n.children|)
  }

  function ChildrenSize(n: UiNode, k: nat): nat
    requires k <= |n.children|
    decreases n, k
  {
    if k == 0 then 0
    else ChildrenSize(n, k - 1) + (match n.children[k - 1] case None => 0 case Some(c) => Size(c))
  }

  /** The `MutableList<ViewData>` that `traverseNode` appends to. */
  class ViewList {
    var views: seq<ViewData>

    constructor()
      ensures views == []
    {
      views := [];
    }

    method Add(v: ViewData)
      modifies this
      ensures views == old(views) + [v]
    {
      views := views + [v];
    }
  }

  /** `traverseNode`: append the node, then traverse children 0 until
      `childCount`, skipping null ones. */
  method TraverseNode(node: UiNode, views: ViewList)
    modifies views
    ensures views.views == old(views.views) + PreOrder(node)
    decreases node
  {
    views.Add(ToViewData(node.info));
    for i := 0 to |node.children|
      invariant views.views == old(views.views) + [ToViewData(node.info)] + ChildrenPreOrder(node, i)
    {
      match node.children[i] {
        case None =>
        case Some(child) =>
          TraverseNode(child, views);
      }
    }
  }

  /** `extractScreenData`: traverse from the root into a fresh list. */
  method ExtractScreenData(root: UiNode) returns (screen: ScreenData)
    ensures screen.views == PreOrder(root)
    ensures |screen.views| == Size(root) && screen.views[0] == ToViewData(root.info)
  {
    var views := new ViewList();
    TraverseNode(root, views);
    screen := ScreenData(views.views);
    PreOrderSize(root);
  }

  /** Every non-null node appears exactly once in the flattened list. */
  lemma {:induction false} PreOrderSize(n: UiNode)
    ensures |PreOrder(n)| == Size(n)
    decreases n, |n.children| + 1
  {
    ChildrenPreOrderSize(n, |n.children|);
  }

  lemma {:induction false} ChildrenPreOrderSize(n: UiNode, k: nat)
    requires k <= |n.children|
    ensures |ChildrenPreOrder(n, k)| == ChildrenSize(n, k)
    decreases n, k
  {
    if k > 0 {
      ChildrenPreOrderSize(n, k - 1);
      match n.children[k - 1] {
        case None =>
        case Some(c) => PreOrderSize(c);
      }
    }
  }

  /** The lists of children 0..i-1 are a prefix of those of children 0..k-1. */
  lemma {:induction false} ChildrenPrefix(n: UiNode, i: nat, k: nat)
    requires i <= k <= |n.children|
    ensures ChildrenPreOrder(n, i) <= ChildrenPreOrder(n, k)
    decreases k
  {
    if i < k {
      ChildrenPrefix(n, i, k - 1);
    }
  }

  /** The offset at which child `i`'s subtree starts in the parent's list. */
  function ChildOffset(n: UiNode, i: nat): nat
    requires i <= |n.children|
  {
    1 + |ChildrenPreOrder(n, i)|
  }

  /** A node comes before its descendants: the subtree of every non-null child
      `i` is a contiguous block of the parent's list after the parent itself. */
  lemma ChildSubtreeBlock(n: UiNode, i: nat)
    requires i < |n.children| && n.children[i].Some?
    ensures var c := n.children[i].value;
      var off := ChildOffset(n, i);
      PreOrder(n)[0] == ToViewData(n.info) &&
      off + |PreOrder(c)| <= |PreOrder(n)| &&
      PreOrder(n)[off..off + |PreOrder(c)|] == PreOrder(c)
  {
    var c := n.children[i].value;
    ChildrenPrefix(n, i + 1, |n.children|);
    var whole := ChildrenPreOrder(n, |n.children|);
    var upTo := ChildrenPreOrder(n, i + 1);
    assert upTo == ChildrenPreOrder(n, i) + PreOrder(c);
    var off := ChildOffset(n, i);
    assert PreOrder(n) == [ToViewData(n.info)] + whole;
    assert PreOrder(n)[off..off + |PreOrder(c)|] == upTo[off - 1..off - 1 + |PreOrder(c)|];
  }

  /** Children are visited in index order: the block of child `i` ends before
      the block of any later non-null child `j` starts. */
  lemma SiblingsInIndexOrder(n: UiNode, i: nat, j: nat)
    requires i < j < |n.children| && n.children[i].Some?
    ensures ChildOffset(n, i) + |PreOrder(n.children[i].value)| <= ChildOffset(n, j)
  {
    ChildrenPrefix(n, i + 1, j);
  }

  /** A null child contributes nothing to the list. */
  lemma NullChildSkipped(n: UiNode, i: nat)
    requires i < |n.children| && n.children[i].None?
    ensures ChildrenPreOrder(n, i + 1) == ChildrenPreOrder(n, i)
  {
  }
}
