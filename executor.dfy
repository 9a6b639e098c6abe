/** The action executor of `MyAccessibilityService`: `processActions`,
    `executeAction`, `performNavigation`, `openApp`, `findNodeById` and the
    node-action paths, against an abstract device. */
module ActionExecutor {
  import opened Wrappers
  import opened DeviceActions
  import opened ActionTables

  /** A node of the live window as `findAccessibilityNodeInfosByViewId` and
      `performAction` see it. `handle` is its object identity; `uniqueId` is
      the platform's own (nullable) identifier, unrelated to the `hashCode`
      written into snapshots. */
  datatype LiveNode = LiveNode(handle: nat, viewId: Option<string>, uniqueId: Option<string>)

  /** The nodes of the active window, in the order the platform's
      by-view-id search reports them. */
  type Window = seq<LiveNode>

  /** The argument Bundle passed with an action. */
  datatype ActionArguments =
    | NoArguments
    | TextArgument(text: string)
    | SelectionArguments(start: Int32, end: Int32)
    | PositionArguments(row: Int32, column: Int32)

  /** A call into the platform: the device's log records each one. */
  datatype DeviceOp =
    | GlobalActionPerformed(id: int)
    | ActivityStarted(packageName: string)
    | NodeActionPerformed(node: LiveNode, action: StandardAction, arguments: ActionArguments)

  /** What executing one action came to: a platform call, only an error log
      line (unknown action name), or an exception caught by `executeAction`. */
  datatype Outcome =
    | Performed(op: DeviceOp)
    | LoggedUnknownAction(name: string)
    | Failed(failure: Failure)

  /** The platform as the executor sees it. `activeWindow` gives
      `rootInActiveWindow`'s nodes (null when there is no active window) after
      the operations performed so far; `launchable` is the set of packages
      with a launch intent. */
  datatype Device = Device(activeWindow: seq<DeviceOp> -> Option<Window>, launchable: set<string>)

  /** `node.viewIdResourceName == id` and `node.uniqueId == uniqueId`. */
  predicate Matches(n: LiveNode, id: string, uniqueId: string)
  {
    n.viewId == Some(id) && n.uniqueId == Some(uniqueId)
  }

  /** `findAccessibilityNodeInfosByViewId`: the window's nodes with that view id. */
  function WithViewId(w: Window, id: string): (r: Window)
    ensures forall n :: n in r ==> n in w && n.viewId == Some(id)
    decreases |w|
  {
    if w == [] then []
    else if w[0].viewId == Some(id) then [w[0]] + WithViewId(w[1..], id)
    else WithViewId(w[1..], id)
  }

  /** The `for` loop of `findNodeById`: the first candidate whose uniqueId
      equals the requested one. */
  function FirstWithUniqueId(candidates: Window, uniqueId: string): (r: Option<LiveNode>)
    ensures r.Some? ==> r.value in candidates && r.value.uniqueId == Some(uniqueId)
    ensures r.None? <==> forall n :: n in candidates ==> n.uniqueId != Some(uniqueId)
    decreases |candidates|
  {
    if candidates == [] then None
    else if candidates[0].uniqueId == Some(uniqueId) then Some(candidates[0])
    else FirstWithUniqueId(candidates[1..], uniqueId)
  }

  /** `findNodeById`: null without an active window or without any node of
      that view id; otherwise the first candidate with the same uniqueId. */
  function FindNodeById(root: Option<Window>, id: string, uniqueId: string): (r: Option<LiveNode>)
    ensures r.Some? ==> root.Some? && r.value in root.value && Matches(r.value, id, uniqueId)
    ensures root.Some? ==> r == FirstMatch(root.value, id, uniqueId)
  {
    match root
    case None => None
    case Some(w) =>
      var nodes := WithViewId(w, id);
      FilterThenSearch(w, id, uniqueId);
      if |nodes| == 0 then None
      else FirstWithUniqueId(nodes, uniqueId)
  }

  /** Reference definition: one pass over the window for the first node
      matching both identifiers. */
  function FirstMatch(w: Window, id: string, uniqueId: string): (r: Option<LiveNode>)
    ensures r.Some? <==> exists j :: 0 <= j < |w| && Matches(w[j], id, uniqueId)
    ensures r.Some? ==> exists j :: 0 <= j < |w| && w[j] == r.value && Matches(w[j], id, uniqueId)
                          && forall i :: 0 <= i < j ==> !Matches(w[i], id, uniqueId)
    decreases |w|
  {
    if w == [] then None
    else if Matches(w[0], id, uniqueId) then Some(w[0])
    else
      var r := FirstMatch(w[1..], id, uniqueId);
      assert forall j :: 1 <= j < |w| ==> w[j] == w[1..][j - 1];
      r
  }

  /** Filtering by view id and then searching by uniqueId finds the first node
      that matches both. */
  lemma {:induction false} FilterThenSearch(w: Window, id: string, uniqueId: string)
    ensures FirstWithUniqueId(WithViewId(w, id), uniqueId) == FirstMatch(w, id, uniqueId)
    decreases |w|
  {
    if w != [] {
      FilterThenSearch(w[1..], id, uniqueId);
    }
  }

  /** Even when exactly one node has the view id, it is returned only if its
      uniqueId matches too. */
  lemma SingleViewIdMatchNeedsUniqueId(w: Window, id: string, uniqueId: string)
    requires |WithViewId(w, id)| == 1
    requires WithViewId(w, id)[0].uniqueId != Some(uniqueId)
    ensures FindNodeById(Some(w), id, uniqueId) == None
  {
    var nodes := WithViewId(w, id);
    assert nodes[1..] == [];
    assert FirstWithUniqueId(nodes, uniqueId) == FirstWithUniqueId(nodes[1..], uniqueId);
  }

  /** `performNodeAction`: an unknown name only logs, whatever the node; a
      known name on a null node throws `ElementNotFoundException`. */
  function PerformNodeAction(node: Option<LiveNode>, actionName: string): (o: Outcome)
    ensures o.LoggedUnknownAction? <==> ActionId(actionName).None?
    ensures o.Failed? <==> ActionId(actionName).Some? && node.None?
    ensures o.Performed? ==> o.op == NodeActionPerformed(node.value, ActionId(actionName).value, NoArguments)
  {
    match ActionId(actionName)
    case None => LoggedUnknownAction(actionName)
    case Some(action) =>
      if node.None? then Failed(ElementNotFound)
      else Performed(NodeActionPerformed(node.value, action, NoArguments))
  }

  /** `performNodeActionWithArgument`: only the three argument actions are
      accepted. ACTION_SET_TEXT sets the argument as the node's text. The two
      integer ones parse "a-b" before the node is checked, so a malformed
      argument reports the parse error even without a node; a well-formed
      one passes the two integers. A null node otherwise throws
      ElementNotFoundException. `ActionId(actionName).value` is the
      `actionId!!` of the source: the verifier proves it is never null on
      these paths. */
  function PerformNodeActionWithArgument(node: Option<LiveNode>, actionName: string, argument: string): (o: Outcome)
    ensures o.Performed? ==> actionName in {"ACTION_SET_TEXT", "ACTION_SET_SELECTION", "ACTION_SCROLL_TO_POSITION"}
    ensures actionName !in {"ACTION_SET_TEXT", "ACTION_SET_SELECTION", "ACTION_SCROLL_TO_POSITION"} ==>
              o == Failed(IllegalArgument("Unknown action name: " + actionName))
    ensures actionName == "ACTION_SET_TEXT" ==>
              o == if node.None? then Failed(ElementNotFound)
                   else Performed(NodeActionPerformed(node.value, SetText, TextArgument(argument)))
    ensures actionName in {"ACTION_SET_SELECTION", "ACTION_SCROLL_TO_POSITION"} && ParsePair(argument).Failure? ==>
              o == Failed(ParsePair(argument).error)
    ensures actionName in {"ACTION_SET_SELECTION", "ACTION_SCROLL_TO_POSITION"} && ParsePair(argument).Success? && node.None? ==>
              o == Failed(ElementNotFound)
    ensures actionName == "ACTION_SET_SELECTION" && ParsePair(argument).Success? && node.Some? ==>
              var (start, end) := ParsePair(argument).value;
              o == Performed(NodeActionPerformed(node.value, SetSelection, SelectionArguments(start, end)))
    ensures actionName == "ACTION_SCROLL_TO_POSITION" && ParsePair(argument).Success? && node.Some? ==>
              var (row, column) := ParsePair(argument).value;
              o == Performed(NodeActionPerformed(node.value, ScrollToPosition, PositionArguments(row, column)))
  {
    ArgumentActionIds();
    if actionName == "ACTION_SET_TEXT" then
      if node.None? then Failed(ElementNotFound)
      else Performed(NodeActionPerformed(node.value, ActionId(actionName).value, TextArgument(argument)))
    else if actionName == "ACTION_SET_SELECTION" then
      match ParsePair(argument)
      case Failure(f) => Failed(f)
      case Success(pair) =>
        if node.None? then Failed(ElementNotFound)
        else Performed(NodeActionPerformed(node.value, ActionId(actionName).value, SelectionArguments(pair.0, pair.1)))
    else if actionName == "ACTION_SCROLL_TO_POSITION" then
      match ParsePair(argument)
      case Failure(f) => Failed(f)
      case Success(pair) =>
        if node.None? then Failed(ElementNotFound)
        else Performed(NodeActionPerformed(node.value, ActionId(actionName).value, PositionArguments(pair.0, pair.1)))
    else Failed(IllegalArgument("Unknown action name: " + actionName))
  }

  /** The three argument actions are in the action table, so the source's
      `actionId!!` never throws on them. */
  lemma ArgumentActionIds()
    ensures ActionId("ACTION_SET_TEXT") == Some(SetText)
    ensures ActionId("ACTION_SET_SELECTION") == Some(SetSelection)
    ensures ActionId("ACTION_SCROLL_TO_POSITION") == Some(ScrollToPosition)
  {
    ActionIdInvertsActionName(SetText);
    ActionIdInvertsActionName(SetSelection);
    ActionIdInvertsActionName(ScrollToPosition);
  }

  /** `performNodeActionWrapper`: resolve the node, then take the argument
      path for a non-empty argument and the plain path otherwise. */
  function PerformNodeActionWrapper(root: Option<Window>, targetId: string, uniqueId: string,
                                    actionName: string, argument: string): (o: Outcome)
    ensures o.Performed? ==>
              && o.op.NodeActionPerformed? && root.Some?
              && o.op.node in root.value && Matches(o.op.node, targetId, uniqueId)
    ensures |argument| == 0 && ActionId(actionName).None? ==> o == LoggedUnknownAction(actionName)
    ensures |argument| > 0 ==> !o.LoggedUnknownAction?
  {
    var node := FindNodeById(root, targetId, uniqueId);
    if |argument| > 0 then PerformNodeActionWithArgument(node, actionName, argument)
    else PerformNodeAction(node, actionName)
  }

  /** `openApp`: start the launch activity, or throw `AppNotFoundException`. */
  function OpenApp(device: Device, packageName: string): (o: Outcome)
    ensures o.Performed? <==> packageName in device.launchable
    ensures !o.Performed? ==> o == Failed(AppNotFound(packageName))
  {
    if packageName in device.launchable then Performed(ActivityStarted(packageName))
    else Failed(AppNotFound(packageName))
  }

  /** `performNavigation`: each of the six global-action names performs its
      own global action, "open_app" opens the package, and any other type
      throws IllegalArgumentException. */
  function PerformNavigation(device: Device, navigationType: string, packageName: string): (o: Outcome)
    ensures NavigationTargetOf(navigationType).None? ==>
              o == Failed(IllegalArgument("Unknown navigation type: " + navigationType))
    ensures forall id :: NavigationTargetOf(navigationType) == Some(GlobalAction(id)) ==>
              o == Performed(GlobalActionPerformed(id))
    ensures NavigationTargetOf(navigationType) == Some(LaunchApp) ==> o == OpenApp(device, packageName)
    ensures o.Performed? && o.op.GlobalActionPerformed? ==> GlobalActionName(o.op.id) == navigationType
  {
    match NavigationTargetOf(navigationType)
    case None => Failed(IllegalArgument("Unknown navigation type: " + navigationType))
    case Some(GlobalAction(id)) =>
      GlobalActionNameInvertsNavigation(navigationType, id);
      Performed(GlobalActionPerformed(id))
    case Some(LaunchApp) => OpenApp(device, packageName)
  }

  /** `executeAction`: "navigate" goes to `performNavigation`, every other
      type is a node action named by the type; exceptions become `Failed`. */
  function ExecuteAction(device: Device, log: seq<DeviceOp>, action: DeviceAction): (o: Outcome)
    ensures action.actionType == "navigate" ==>
              o == PerformNavigation(device, action.navigationType, action.packageName)
    ensures action.actionType != "navigate" && o.Performed? ==>
              && o.op.NodeActionPerformed? && device.activeWindow(log).Some?
              && o.op.node in device.activeWindow(log).value
              && Matches(o.op.node, action.targetId, action.uniqueId)
    ensures action.actionType != "navigate" ==> !o.Performed? || o.op.NodeActionPerformed?
  {
    if action.actionType == "navigate" then
      PerformNavigation(device, action.navigationType, action.packageName)
    else
      PerformNodeActionWrapper(device.activeWindow(log), action.targetId, action.uniqueId,
                               action.actionType, action.textToType)
  }

  /** The platform calls among some outcomes, in order. */
  function Effects(outcomes: seq<Outcome>): seq<DeviceOp>
    decreases |outcomes|
  {
    if outcomes == [] then []
    else
      var last := outcomes[|outcomes| - 1];
      Effects(outcomes[..|outcomes| - 1]) + (if last.Performed? then [last.op] else [])
  }

  /** `executeAction` on a given device, as a value. */
  function Executor(device: Device): (seq<DeviceOp>, DeviceAction) -> Outcome
  {
    (log: seq<DeviceOp>, action: DeviceAction) => ExecuteAction(device, log, action)
  }

  /** Specification of `processActions` for any per-action executor: every
      action in order, each against the log of what the earlier ones did. */
  function Run(execute: (seq<DeviceOp>, DeviceAction) -> Outcome, log: seq<DeviceOp>, actions: seq<DeviceAction>): seq<Outcome>
    decreases |actions|
  {
    if actions == [] then []
    else
      var earlier := Run(execute, log, actions[..|actions| - 1]);
      earlier + [execute(log + Effects(earlier), actions[|actions| - 1])]
  }

  /** `processActions`: the loop handing each action to `executeAction`,
      which is `execute` here (`Executor(device)` for the service on
      `device`). It returns the device's operation log extended by what the
      actions did, and the outcome of each. */
  method ProcessActions(execute: (seq<DeviceOp>, DeviceAction) -> Outcome, log: seq<DeviceOp>, actions: seq<DeviceAction>)
    returns (newLog: seq<DeviceOp>, outcomes: seq<Outcome>)
    ensures outcomes == Run(execute, log, actions)
    ensures newLog == log + Effects(outcomes)
    ensures |outcomes| == |actions|
  {
    newLog, outcomes := log, [];
    for i := 0 to |actions|
      invariant outcomes == Run(execute, log, actions[..i])
      invariant newLog == log + Effects(outcomes)
      invariant |outcomes| == i
    {
      var outcome := execute(newLog, actions[i]);
      RunStep(execute, log, actions, i);
      EffectsStep(outcomes, outcome);
      outcomes := outcomes + [outcome];
      newLog := newLog + (if outcome.Performed? then [outcome.op] else []);
    }
    assert actions[..|actions|] == actions;
  }

  /** One more action extends `Run` by that action's outcome. */
  lemma RunStep(execute: (seq<DeviceOp>, DeviceAction) -> Outcome, log: seq<DeviceOp>, actions: seq<DeviceAction>, i: nat)
    requires i < |actions|
    ensures var earlier := Run(execute, log, actions[..i]);
      Run(execute, log, actions[..i + 1]) == earlier + [execute(log + Effects(earlier), actions[i])]
  {
    assert actions[..i + 1][..i] == actions[..i];
  }

  /** One more outcome extends `Effects` by its platform call, if any. */
  lemma EffectsStep(outcomes: seq<Outcome>, outcome: Outcome)
    ensures Effects(outcomes + [outcome]) == Effects(outcomes) + (if outcome.Performed? then [outcome.op] else [])
  {
    assert (outcomes + [outcome])[..|outcomes|] == outcomes;
  }

  lemma {:induction false} EffectsAppend(a: seq<Outcome>, b: seq<Outcome>)
    ensures Effects(a + b) == Effects(a) + Effects(b)
    decreases |b|
  {
    if b == [] {
      assert a + b == a;
    } else {
      assert (a + b)[..|a + b| - 1] == a + b[..|b| - 1];
      assert (a + b)[|a + b| - 1] == b[|b| - 1];
      EffectsAppend(a, b[..|b| - 1]);
    }
  }

  /** Every action is attempted: one outcome per action. */
  lemma {:induction false} RunLength(execute: (seq<DeviceOp>, DeviceAction) -> Outcome, log: seq<DeviceOp>, actions: seq<DeviceAction>)
    ensures |Run(execute, log, actions)| == |actions|
    decreases |actions|
  {
    if actions != [] {
      RunLength(execute, log, actions[..|actions| - 1]);
    }
  }

  /** Failure isolation: processing `xs + ys` is processing `xs` and then `ys`
      from the device state `xs` left, whatever outcomes `xs` had. */
  lemma {:induction false} RunAppend(execute: (seq<DeviceOp>, DeviceAction) -> Outcome, log: seq<DeviceOp>, xs: seq<DeviceAction>, ys: seq<DeviceAction>)
    ensures Run(execute, log, xs + ys) ==
            Run(execute, log, xs) + Run(execute, log + Effects(Run(execute, log, xs)), ys)
    decreases |ys|
  {
    if ys == [] {
      assert xs + ys == xs;
    } else {
      var ys', y := ys[..|ys| - 1], ys[|ys| - 1];
      var first := Run(execute, log, xs);
      var log' := log + Effects(first);
      var rest := Run(execute, log', ys');
      calc {
        Run(execute, log, xs + ys);
        { assert (xs + ys)[..|xs + ys| - 1] == xs + ys';
          assert (xs + ys)[|xs + ys| - 1] == y; }
        Run(execute, log, xs + ys') + [execute(log + Effects(Run(execute, log, xs + ys')), y)];
        { RunAppend(execute, log, xs, ys'); }
        first + rest + [execute(log + Effects(first + rest), y)];
        { EffectsAppend(first, rest);
          assert log + Effects(first + rest) == log' + Effects(rest); }
        first + rest + [execute(log' + Effects(rest), y)];
        first + Run(execute, log', ys);
      }
    }
  }

  /** Each action runs against the log of the operations the actions before
      it performed: an action whose predecessor failed is still executed. */
  lemma {:induction false} ActionStillRuns(execute: (seq<DeviceOp>, DeviceAction) -> Outcome, log: seq<DeviceOp>, actions: seq<DeviceAction>, k: nat)
    requires k < |actions|
    ensures |Run(execute, log, actions)| == |actions|
    ensures Run(execute, log, actions)[k] ==
            execute(log + Effects(Run(execute, log, actions[..k])), actions[k])
    decreases |actions|
  {
    var init := actions[..|actions| - 1];
    var earlier := Run(execute, log, init);
    RunLength(execute, log, init);
    assert Run(execute, log, actions) == earlier + [execute(log + Effects(earlier), actions[|actions| - 1])];
    if k == |actions| - 1 {
      assert actions[..k] == init;
    } else {
      ActionStillRuns(execute, log, init, k);
      assert init[..k] == actions[..k] && init[k] == actions[k];
    }
  }

  /** On the service's own executor: action k is `executeAction` on the
      device as the actions before it left it, whatever their outcomes. */
  lemma DeviceActionStillRuns(device: Device, log: seq<DeviceOp>, actions: seq<DeviceAction>, k: nat)
    requires k < |actions|
    ensures |Run(Executor(device), log, actions)| == |actions|
    ensures Run(Executor(device), log, actions)[k] ==
            ExecuteAction(device, log + Effects(Run(Executor(device), log, actions[..k])), actions[k])
  {
    ActionStillRuns(Executor(device), log, actions, k);
  }

  /** A "navigate" action never looks up a node: its outcome does not depend
      on the active window. */
  lemma NavigateIgnoresWindow(d1: Device, d2: Device, log1: seq<DeviceOp>, log2: seq<DeviceOp>, action: DeviceAction)
    requires action.actionType == "navigate" && d1.launchable == d2.launchable
    ensures ExecuteAction(d1, log1, action) == ExecuteAction(d2, log2, action)
  {
  }

  /** Any action other than "navigate" whose `textToType` is empty (its
      default) takes the no-argument path on the resolved node. */
  lemma DefaultTextTakesPlainPath(device: Device, log: seq<DeviceOp>, action: DeviceAction)
    requires action.actionType != "navigate" && action.textToType == ""
    ensures ExecuteAction(device, log, action) ==
            PerformNodeAction(FindNodeById(device.activeWindow(log), action.targetId, action.uniqueId), action.actionType)
  {
  }

  /** An unknown action name with no argument only logs, even when no node
      is found. */
  lemma UnknownNameOnlyLogs(device: Device, log: seq<DeviceOp>, action: DeviceAction)
    requires action.actionType != "navigate" && action.textToType == ""
    requires ActionId(action.actionType).None?
    ensures ExecuteAction(device, log, action) == LoggedUnknownAction(action.actionType)
  {
  }

  /** A known action name whose node cannot be resolved fails with
      ElementNotFoundException. */
  lemma KnownNameUnresolvedNodeFails(device: Device, log: seq<DeviceOp>, action: DeviceAction)
    requires action.actionType != "navigate" && action.textToType == ""
    requires ActionId(action.actionType).Some?
    requires FindNodeById(device.activeWindow(log), action.targetId, action.uniqueId).None?
    ensures ExecuteAction(device, log, action) == Failed(ElementNotFound)
  {
  }

  /** Every global action the navigation table reaches is performed when
      its own name is given, and a name performs a global action only if it
      is that action's name. */
  lemma NavigationPerformsNamedGlobalAction(device: Device, navigationType: string, id: int, packageName: string)
    ensures id in NavigableGlobalActions ==>
              PerformNavigation(device, GlobalActionName(id), packageName) == Performed(GlobalActionPerformed(id))
    ensures PerformNavigation(device, navigationType, packageName) == Performed(GlobalActionPerformed(id)) ==>
              id in NavigableGlobalActions && navigationType == GlobalActionName(id)
  {
    GlobalActionNameInvertsNavigation(GlobalActionName(id), id);
    GlobalActionNameInvertsNavigation(navigationType, id);
  }

  /** "r-c" written from two naturals in range sets the selection from r to
      c, or scrolls to row r and column c, on a present node. */
  lemma {:induction false} ArgumentActionsOnNaturals(node: LiveNode, a: Int32, b: Int32)
    requires a >= 0 && b >= 0
    ensures PerformNodeActionWithArgument(Some(node), "ACTION_SET_SELECTION", NatToString(a) + "-" + NatToString(b)) ==
            Performed(NodeActionPerformed(node, SetSelection, SelectionArguments(a, b)))
    ensures PerformNodeActionWithArgument(Some(node), "ACTION_SCROLL_TO_POSITION", NatToString(a) + "-" + NatToString(b)) ==
            Performed(NodeActionPerformed(node, ScrollToPosition, PositionArguments(a, b)))
  {
    ParsePairOfNaturals(a, b);
  }

  /** Any other action with a non-empty `textToType` takes the argument path
      on the node `findNodeById` resolves. */
  lemma TextTakesArgumentPath(device: Device, log: seq<DeviceOp>, action: DeviceAction)
    requires action.actionType != "navigate" && |action.textToType| > 0
    ensures ExecuteAction(device, log, action) ==
            PerformNodeActionWithArgument(FindNodeById(device.activeWindow(log), action.targetId, action.uniqueId),
                                          action.actionType, action.textToType)
  {
  }
}
