# AccessibilityService in Dafny

This project models the core of an Android accessibility service. The service
does five things:

- It flattens the screen's node tree into a list of `ViewData` records.
- It sends the resulting JSON, wrapped in a fixed prompt, to a language model.
  Requests are more than 3000 ms apart.
- It executes the `DeviceAction`s such a model can return. An action is either
  a global navigation, an app launch, or an action on a node of the current
  window.
- It announces text through a text-to-speech engine. Texts that arrive before
  the engine is ready are queued.
- It serialises a rectangle as four indexed integer elements.

The Android platform is abstracted throughout:

- The screen tree is a datatype (`ScreenTraversal.UiNode`).
- The device is a log of the operations performed on it (`ActionExecutor.DeviceOp`).
- The active window is a function of that log.
- The package manager is a set of launchable packages.
- The wall clock is a `now` parameter.
- The Gemini client and the Gson parser are function parameters.
- Every exception the executor's own code throws is a variant of `ActionTables.Failure`. Platform calls are taken to succeed (see "## Left out").

Modules, one per source component:

| module | file | models |
|---|---|---|
| `Wrappers` | wrappers.dfy | `Option`, `Result`, the 32-bit `Int32` range |
| `ScreenModel` | screen_data.dfy | `ViewData`/`ScreenData` and `RectSerializer` |
| `ScreenTraversal` | traversal.dfy | `traverseNode` / `extractScreenData` |
| `DeviceActions` | device_action.dfy | the `DeviceAction` record |
| `ActionTables` | action_tables.dfy | the action-name, navigation and global-action tables; `split("-")` and `toInt()` |
| `ActionExecutor` | executor.dfy | `processActions` down to `findNodeById` |
| `GeminiContent` | gemini_content.dfy | `ContentPart` / `Content` |
| `Prompts` | prompts.dfy | `PromptCreator` |
| `Network` | network.dfy | `NetworkService` |
| `Interactor` | interactor.dfy | `LLMInteractor` and `ScreenResponse` of `LLMInteractor.kt` |
| `Conversation` | conversation.dfy | `ConversationManager.kt`, including its own earlier `LLMInteractor` and `ScreenResponse` |
| `Tts` | tts.dfy | the announcer state machine shared by both `AccessibilityAnnouncer` revisions |
| `Announcer` | announcer.dfy | `AccessibilityAnnouncer` in `com.example.accessibilityservice` (flush mode, progress callbacks) |
| `LegacyAnnouncer` | legacy_announcer.dfy | `AccessibilityAnnouncer` in the default package (add mode) |

Some modules change state step by step, as their source does:

- `TraverseNode` appends in place to a `ViewList` object.
- `Deserialize`, `ProcessActions` and `MakeConversationContents` are loops.
- The rate limiter and the announcers are classes whose fields the methods update.

Each of these is proved against a pure specification function (`PreOrder`,
`DecodeFrom`, `Run`, `ConversationContents`, the `Tts` transitions). The
lemmas state the source's promises about that function.

## Model

| member | source | states |
|---|---|---|
| ScreenModel.Serialize | app/src/main/java/com/example/accessibilityservice/ScreenData.kt:51-58 | exactly four elements; element k has index k and carries left, top, right, bottom for k = 0..3 |
| ScreenModel.Deserialize | app/src/main/java/com/example/accessibilityservice/ScreenData.kt:60-78 | the `while (true)` loop over decoded elements computes the element-by-element decoding from an all-zero rectangle |
| ScreenModel.LastValueIsLastOccurrence | app/src/main/java/com/example/accessibilityservice/ScreenData.kt:66-71 | the value a field ends with is that of the last element carrying its index |
| ScreenModel.LastValueAbsent | app/src/main/java/com/example/accessibilityservice/ScreenData.kt:62-65 | a field whose index never occurs keeps its initial value |
| ScreenModel.DecodeFromLastWins | app/src/main/java/com/example/accessibilityservice/ScreenData.kt:66-76 | over indices 0..3, decoding succeeds and each coordinate is the last value written to its index |
| ScreenModel.DeserializeLastWins | app/src/main/java/com/example/accessibilityservice/ScreenData.kt:60-78 | the same starting from `0, 0, 0, 0`: each coordinate is its index's last value, or 0 |
| ScreenModel.MissingCoordinateIsZero | app/src/main/java/com/example/accessibilityservice/ScreenData.kt:62-65 | a coordinate whose element never appears decodes to 0 |
| ScreenModel.RepeatedIndexLastWins | app/src/main/java/com/example/accessibilityservice/ScreenData.kt:66-71 | a repeated index is overwritten; the later element's value wins |
| ScreenModel.LastValueSwap | app/src/main/java/com/example/accessibilityservice/ScreenData.kt:67-71 | swapping two adjacent elements with different indices changes no field's final value |
| ScreenModel.DeserializeSwapIndependent | app/src/main/java/com/example/accessibilityservice/ScreenData.kt:66-72 | elements may arrive in any order: each index sets only its own field |
| ScreenModel.SerializeRoundTrip | app/src/main/java/com/example/accessibilityservice/ScreenData.kt:51-78 | deserialising what `serialize` wrote gives back the same rectangle |
| ScreenModel.UnexpectedIndexFails | app/src/main/java/com/example/accessibilityservice/ScreenData.kt:73 | the first index outside 0..3 and DECODE_DONE raises "Unexpected index" carrying that index |
| ScreenModel.DecodeStopsAtDone | app/src/main/java/com/example/accessibilityservice/ScreenData.kt:72 | decoding stops at DECODE_DONE; later elements are never read |
| ScreenModel.Encode | app/src/main/java/com/example/accessibilityservice/ScreenData.kt:19-38 | the serialised form keeps bounds, windowId and uniqueId |
| ScreenModel.Decode | app/src/main/java/com/example/accessibilityservice/ScreenData.kt:30 | a decoded view has `isVisible == false` |
| ScreenModel.TransientVisibility | app/src/main/java/com/example/accessibilityservice/ScreenData.kt:30 | `isVisible` is not part of the serialised form; a round trip resets it to false and keeps every other field |
| ScreenModel.ViewDataDefaults | app/src/main/java/com/example/accessibilityservice/ScreenData.kt:20-38 | with only the required fields given, the optional strings are null, `windowId` is -1 and `isVisible` is false |
| ScreenTraversal.ToViewData | app/src/main/java/com/example/accessibilityservice/MyAccessibilityService.kt:94-111 | the record of a node carries its bounds and view id, takes `uniqueId` from `hashCode()`, and is not visible |
| ScreenTraversal.ViewList.constructor | app/src/main/java/com/example/accessibilityservice/MyAccessibilityService.kt:88 | the list starts empty |
| ScreenTraversal.ViewList.Add | app/src/main/java/com/example/accessibilityservice/MyAccessibilityService.kt:112 | `views.add` appends one record at the end |
| ScreenTraversal.TraverseNode | app/src/main/java/com/example/accessibilityservice/MyAccessibilityService.kt:93-120 | appends to whatever the list held the pre-order list of the subtree's non-null nodes: each node before its descendants, children in index order, null children skipped |
| ScreenTraversal.ExtractScreenData | app/src/main/java/com/example/accessibilityservice/MyAccessibilityService.kt:87-91 | the result is the pre-order list of the tree, one record per non-null node, with the root first |
| ScreenTraversal.PreOrderSize | app/src/main/java/com/example/accessibilityservice/MyAccessibilityService.kt:93-120 | the flattened list has one entry per non-null node of the tree |
| ScreenTraversal.ChildrenPreOrderSize | app/src/main/java/com/example/accessibilityservice/MyAccessibilityService.kt:114-119 | children 0..k-1 contribute one entry per non-null node in their subtrees |
| ScreenTraversal.ChildrenPrefix | app/src/main/java/com/example/accessibilityservice/MyAccessibilityService.kt:114-119 | what the first i children contribute is a prefix of what the first k contribute, for i <= k |
| ScreenTraversal.ChildSubtreeBlock | app/src/main/java/com/example/accessibilityservice/MyAccessibilityService.kt:112-119 | a non-null child's whole subtree occupies one contiguous block of its parent's list, after the parent itself |
| ScreenTraversal.SiblingsInIndexOrder | app/src/main/java/com/example/accessibilityservice/MyAccessibilityService.kt:114-119 | the block of child i ends before the block of any later child j starts |
| ScreenTraversal.NullChildSkipped | app/src/main/java/com/example/accessibilityservice/MyAccessibilityService.kt:115-118 | a null child contributes nothing |
| DeviceActions.DefaultsAreEmpty | app/src/main/java/com/example/accessibilityservice/DeviceAction.kt:13-20 | `type` must be supplied; `targetId`, `textToType`, `navigationType`, `packageName` and `uniqueId` default to "" |
| DeviceActions.EqualFieldsEqualActions | app/src/main/java/com/example/accessibilityservice/DeviceAction.kt:12-20 | two actions with equal fields are equal |
| ActionTables.ActionId | app/src/main/java/com/example/accessibilityservice/MyAccessibilityService.kt:348-384 | a name the table knows is the name of the action it denotes |
| ActionTables.ActionIdFromF | app/src/main/java/com/example/accessibilityservice/MyAccessibilityService.kt:360-370 | a name this group of the table knows is the name of the action it denotes |
| ActionTables.ActionIdFromScroll | app/src/main/java/com/example/accessibilityservice/MyAccessibilityService.kt:373-375 | a name this group of the table knows is the name of the action it denotes |
| ActionTables.ActionIdFromSelect | app/src/main/java/com/example/accessibilityservice/MyAccessibilityService.kt:376-381 | a name this group of the table knows is the name of the action it denotes |
| ActionTables.ActionIdInvertsActionName | app/src/main/java/com/example/accessibilityservice/MyAccessibilityService.kt:348-384 | each of the 26 listed names maps to its own action, so the table is non-null exactly for the listed names |
| ActionTables.CommentedOutNamesUnknown | app/src/main/java/com/example/accessibilityservice/MyAccessibilityService.kt:363-377 | the commented-out names, such as ACTION_SET_PROGRESS, give null |
| ActionTables.GlobalActionName | app/src/main/java/com/example/accessibilityservice/MyAccessibilityService.kt:386-396 | every name it returns other than "Unknown Global Action" is one the navigation table maps back to the same id |
| ActionTables.NavigationTargetOf | app/src/main/java/com/example/accessibilityservice/MyAccessibilityService.kt:184-192 | only "open_app" launches an app, and every global action the table reaches is one of the six navigable ids |
| ActionTables.GlobalActionNameInvertsNavigation | app/src/main/java/com/example/accessibilityservice/MyAccessibilityService.kt:184-190 | each navigation string that maps to a global action is that action's name; an id has a name exactly when it is one of the six navigable ids |
| ActionTables.Split | app/src/main/java/com/example/accessibilityservice/MyAccessibilityService.kt:249 | `split("-")` yields at least one piece and no piece contains the separator |
| ActionTables.SplitJoin | app/src/main/java/com/example/accessibilityservice/MyAccessibilityService.kt:249 | joining the pieces with the separator gives back the argument, so empty pieces are kept |
| ActionTables.SplitPrefix | app/src/main/java/com/example/accessibilityservice/MyAccessibilityService.kt:249-253 | a separator-free text followed by "-" is the first piece |
| ActionTables.SplitNoSeparator | app/src/main/java/com/example/accessibilityservice/MyAccessibilityService.kt:249-253 | a text without "-" is a single piece |
| ActionTables.NatToStringValue | app/src/main/java/com/example/accessibilityservice/MyAccessibilityService.kt:249 | the decimal text of n has value n |
| ActionTables.ParseIntRoundTrip | app/src/main/java/com/example/accessibilityservice/MyAccessibilityService.kt:249 | `toInt()` reads back the decimal text of any non-negative Int |
| ActionTables.ParseInt | app/src/main/java/com/example/accessibilityservice/MyAccessibilityService.kt:249 | `toInt()` accepts only an optional sign followed by at least one digit (a bare sign fails); unsigned or '+' text gives its decimal value when it is at most Int.MAX_VALUE and fails above it; '-' text gives the negated value down to Int.MIN_VALUE and fails below it |
| ActionTables.ParseIntRoundTripNegative | app/src/main/java/com/example/accessibilityservice/MyAccessibilityService.kt:249 | `toInt()` reads back "-" and the decimal magnitude of any negative Int, Int.MIN_VALUE included |
| ActionTables.ParsePair | app/src/main/java/com/example/accessibilityservice/MyAccessibilityService.kt:245-272 | fails in the source's order: `toInt()` of field 0, then the missing field 1, then `toInt()` of field 1; succeeds exactly when both fields parse, with those two values; fields after 1 are ignored |
| ActionTables.ParsePairOfPieces | app/src/main/java/com/example/accessibilityservice/MyAccessibilityService.kt:245-272 | any two `-`-free fields `toInt` accepts (signs and leading zeros included) parse to their values, and fields after the second are ignored |
| ActionTables.ParsePairOfNaturals | app/src/main/java/com/example/accessibilityservice/MyAccessibilityService.kt:245-257 | "a-b" written from non-negative a and b parses back to (a, b) |
| ActionTables.ParsePairExamples | app/src/main/java/com/example/accessibilityservice/MyAccessibilityService.kt:245-272 | "3-7" gives (3, 7); "abc" fails with NumberFormatException; "3" fails with IndexOutOfBounds at field 1 |
| ActionExecutor.WithViewId | app/src/main/java/com/example/accessibilityservice/MyAccessibilityService.kt:327 | the candidates are nodes of the window with the requested view id |
| ActionExecutor.FirstWithUniqueId | app/src/main/java/com/example/accessibilityservice/MyAccessibilityService.kt:332-336 | the result is a candidate carrying the requested uniqueId, and null exactly when no candidate carries it |
| ActionExecutor.FindNodeById | app/src/main/java/com/example/accessibilityservice/MyAccessibilityService.kt:324-339 | null without an active window; otherwise the first node of the window that matches both view id and uniqueId, if any |
| ActionExecutor.FirstMatch | app/src/main/java/com/example/accessibilityservice/MyAccessibilityService.kt:324-339 | reference search: a result exists iff some node matches both ids, and it is the first such node |
| ActionExecutor.FilterThenSearch | app/src/main/java/com/example/accessibilityservice/MyAccessibilityService.kt:327-337 | filtering by view id and then scanning for the uniqueId finds the first node matching both |
| ActionExecutor.SingleViewIdMatchNeedsUniqueId | app/src/main/java/com/example/accessibilityservice/MyAccessibilityService.kt:328-337 | even a single view-id match is returned only if its uniqueId matches too |
| ActionExecutor.PerformNodeAction | app/src/main/java/com/example/accessibilityservice/MyAccessibilityService.kt:294-303 | an unknown name only logs, whatever the node; a known name on a null node throws ElementNotFoundException; otherwise that action is performed on that node |
| ActionExecutor.PerformNodeActionWithArgument | app/src/main/java/com/example/accessibilityservice/MyAccessibilityService.kt:231-278 | ACTION_SET_TEXT sets the argument as text on a present node; ACTION_SET_SELECTION and ACTION_SCROLL_TO_POSITION pass ParsePair's two integers, and a parse failure is reported even without a node; a null node otherwise throws ElementNotFoundException; only these three names can be performed, and any other throws IllegalArgumentException("Unknown action name: ...") |
| ActionExecutor.ArgumentActionIds | app/src/main/java/com/example/accessibilityservice/MyAccessibilityService.kt:231-232 | the three argument action names are in the action table, so `actionId!!` never throws on them |
| ActionExecutor.PerformNodeActionWrapper | app/src/main/java/com/example/accessibilityservice/MyAccessibilityService.kt:196-204 | whatever is performed acts on a node of the active window matching both ids; an unknown name with no argument only logs; with an argument an unknown name is never silently logged |
| ActionExecutor.OpenApp | app/src/main/java/com/example/accessibilityservice/MyAccessibilityService.kt:310-316 | the launch succeeds iff the package has a launch intent; otherwise AppNotFoundException |
| ActionExecutor.PerformNavigation | app/src/main/java/com/example/accessibilityservice/MyAccessibilityService.kt:183-194 | each of the six GLOBAL_ACTION_* names performs its own global action; "open_app" is `openApp` on the package; any other string throws IllegalArgumentException("Unknown navigation type: ..."); a performed global action is the one whose name was given |
| ActionExecutor.NavigationPerformsNamedGlobalAction | app/src/main/java/com/example/accessibilityservice/MyAccessibilityService.kt:183-190 | the name of each reachable global action performs exactly that action, and only such names perform a global action |
| ActionExecutor.ProcessActions | app/src/main/java/com/example/accessibilityservice/MyAccessibilityService.kt:131-135 | every action is attempted in order with the given executor, one outcome per action; the device log grows by exactly the operations performed |
| ActionExecutor.EffectsAppend | app/src/main/java/com/example/accessibilityservice/MyAccessibilityService.kt:131-135 | the operations of consecutive runs concatenate |
| ActionExecutor.RunLength | app/src/main/java/com/example/accessibilityservice/MyAccessibilityService.kt:131-135 | one outcome per action, whatever the outcomes are |
| ActionExecutor.RunAppend | app/src/main/java/com/example/accessibilityservice/MyAccessibilityService.kt:131-151 | processing xs + ys is processing xs and then ys from the state xs left; a failure in xs does not stop ys |
| ActionExecutor.ActionStillRuns | app/src/main/java/com/example/accessibilityservice/MyAccessibilityService.kt:131-151 | action k is executed against what actions 0..k-1 did, even if they failed |
| ActionExecutor.DeviceActionStillRuns | app/src/main/java/com/example/accessibilityservice/MyAccessibilityService.kt:131-152 | with the service's own executor, action k is executed by `executeAction` against what actions 0..k-1 did, even if they failed |
| ActionExecutor.NavigateIgnoresWindow | app/src/main/java/com/example/accessibilityservice/MyAccessibilityService.kt:144-145 | a "navigate" action never looks at the window |
| ActionExecutor.DefaultTextTakesPlainPath | app/src/main/java/com/example/accessibilityservice/MyAccessibilityService.kt:196-203 | any non-navigate action whose `textToType` is empty (its default) takes the no-argument path on the resolved node |
| ActionExecutor.UnknownNameOnlyLogs | app/src/main/java/com/example/accessibilityservice/MyAccessibilityService.kt:294-303 | an unknown action name without argument only logs, even when no node is found |
| ActionExecutor.KnownNameUnresolvedNodeFails | app/src/main/java/com/example/accessibilityservice/MyAccessibilityService.kt:294-297 | a known name whose node cannot be resolved throws ElementNotFoundException |
| ActionExecutor.ArgumentActionsOnNaturals | app/src/main/java/com/example/accessibilityservice/MyAccessibilityService.kt:245-272 | "r-c" written from two in-range naturals selects r..c (SET_SELECTION) or scrolls to row r, column c (SCROLL_TO_POSITION) on a present node |
| ActionExecutor.ExecuteAction | app/src/main/java/com/example/accessibilityservice/MyAccessibilityService.kt:142-152 | "navigate" goes to `performNavigation`; any other type is a node action named by the type, and whatever it performs acts on a node of the active window matching both ids |
| ActionExecutor.TextTakesArgumentPath | app/src/main/java/com/example/accessibilityservice/MyAccessibilityService.kt:142-152 | any other action with non-empty `textToType` is the argument path on the node `findNodeById` resolves |
| Prompts.CreatePromptForUiScreenUpdated | app/src/main/java/com/example/accessibilityservice/PromptCreator.kt:6-11 | exactly two parts: the fixed instruction first, then the screen data verbatim |
| Prompts.PromptDeterminesScreenData | app/src/main/java/com/example/accessibilityservice/PromptCreator.kt:10 | different screen data give different prompts; the instruction does not depend on the input |
| Network.ConversationContents | app/src/main/java/com/example/accessibilityservice/NetworkService.kt:12-18 | one entry per prompt part; each carries the whole prompt with role "user" |
| Network.MakeConversationContents | app/src/main/java/com/example/accessibilityservice/NetworkService.kt:12-18 | the loop builds exactly those contents, so all entries are equal and an empty prompt gives an empty list |
| Network.ResponseText | app/src/main/java/com/example/accessibilityservice/NetworkService.kt:8 | non-null exactly when the result is non-null and its last content has a part; then it is that first part's text |
| Network.GetResponse | app/src/main/java/com/example/accessibilityservice/NetworkService.kt:4-10 | sends the contents built from the prompt and delivers the extracted text of the client's result |
| Interactor.ScreenResponseDefaults | app/src/main/java/com/example/accessibilityservice/LLMInteractor.kt:30-35 | `actions` is a DeviceAction list defaulting to empty |
| Interactor.RequestGapIsStrict | app/src/main/java/com/example/accessibilityservice/LLMInteractor.kt:10-12 | a request is allowed iff more than 3000 ms have passed; exactly 3000 ms is refused |
| Interactor.Delivered | app/src/main/java/com/example/accessibilityservice/LLMInteractor.kt:15-23 | the result callback fires only when the network returned text, with that text's parse |
| Interactor.LlmInteractor.constructor | app/src/main/java/com/example/accessibilityservice/LLMInteractor.kt:8 | `lastRequestTime` starts at 0 |
| Interactor.LlmInteractor.CanRequestLlm | app/src/main/java/com/example/accessibilityservice/LLMInteractor.kt:10-12 | a request is allowed only strictly more than 3000 ms after the last one, i.e. from 3001 ms on |
| Interactor.LlmInteractor.AskLlm | app/src/main/java/com/example/accessibilityservice/LLMInteractor.kt:13-27 | stamps the request time whatever the outcome; no request is allowed up to 3000 ms later; sends the prompt's contents; delivers the parsed reply only for non-null text |
| Conversation.ScreenResponseDefaults | app/src/main/java/com/example/accessibilityservice/ConversationManager.kt:53-58 | in this revision `actions` is a string list defaulting to empty |
| Conversation.LlmInteractor.constructor | app/src/main/java/com/example/accessibilityservice/ConversationManager.kt:31 | `lastRequestTime` starts at 0 |
| Conversation.LlmInteractor.CanRequestLlm | app/src/main/java/com/example/accessibilityservice/ConversationManager.kt:33-35 | a request is allowed only strictly more than 3000 ms after the last one, i.e. from 3001 ms on |
| Conversation.LlmInteractor.AskLlm | app/src/main/java/com/example/accessibilityservice/ConversationManager.kt:36-50 | the same strict 3000 ms rule; the time is stamped before the request goes out |
| Conversation.ConversationManager.constructor | app/src/main/java/com/example/accessibilityservice/ConversationManager.kt:12-13 | the manager owns a fresh interactor that has never requested |
| Conversation.ConversationManager.UiUpdated | app/src/main/java/com/example/accessibilityservice/ConversationManager.kt:15-20 | only when the limiter allows, sends exactly `PromptCreator`'s prompt for the JSON and stamps the time; otherwise nothing is sent and no state changes |
| Conversation.ConversationManager.UserVoiceInput | app/src/main/java/com/example/accessibilityservice/ConversationManager.kt:22-24 | does nothing |
| Tts.Speak | app/src/main/java/com/example/accessibilityservice/AccessibilityAnnouncer.kt:90-96 | with a live engine the text is handed to it and becomes its newest utterance; without one nothing changes; the flag and the pending list never change |
| Tts.Announce | app/src/main/java/com/example/accessibilityservice/AccessibilityAnnouncer.kt:67-87 | only a non-blank text changes anything; it either joins the end of the pending list or is spoken, and the flag and the engine's presence are kept |
| Tts.OnInit | app/src/main/java/com/example/accessibilityservice/AccessibilityAnnouncer.kt:39-61 | initialised exactly on SUCCESS; success empties the pending list and keeps the engine; failure drops the engine and keeps the pending texts unspoken |
| Tts.Shutdown | app/src/main/java/com/example/accessibilityservice/AccessibilityAnnouncer.kt:102-112 | uninitialised, no engine and nothing pending afterwards; nothing is spoken |
| Tts.SpeakAllEffect | app/src/main/java/com/example/accessibilityservice/AccessibilityAnnouncer.kt:52-55 | speaking a list hands every text to a live engine in order, and does nothing without an engine |
| Tts.OnInitSuccessFlushesPending | app/src/main/java/com/example/accessibilityservice/AccessibilityAnnouncer.kt:39-55 | success sets initialised, speaks every pending text in insertion order, then leaves the pending list empty |
| Tts.OnInitFailureKeepsPending | app/src/main/java/com/example/accessibilityservice/AccessibilityAnnouncer.kt:56-60 | failure clears the flag and the engine; the pending texts are kept |
| Tts.AnnounceBlankHasNoEffect | app/src/main/java/com/example/accessibilityservice/AccessibilityAnnouncer.kt:67-71 | null or blank text has no effect |
| Tts.AnnounceSpeaksOrQueues | app/src/main/java/com/example/accessibilityservice/AccessibilityAnnouncer.kt:73-79 | when initialised with a live engine the text is spoken and the pending list is unchanged; otherwise it is appended to the pending list |
| Tts.ShutdownThenAnnounceQueues | app/src/main/java/com/example/accessibilityservice/AccessibilityAnnouncer.kt:102-111 | after shutdown: uninitialised, no engine, nothing pending; a later announcement only queues |
| Tts.QueueModes | app/src/main/java/com/example/accessibilityservice/AccessibilityAnnouncer.kt:94-95 | QUEUE_FLUSH leaves only the new utterance in the engine; QUEUE_ADD appends it |
| Tts.NoBlankPendingPreserved | app/src/main/java/com/example/accessibilityservice/AccessibilityAnnouncer.kt:67-79 | announce, onInit and shutdown never put a blank text in the pending list |
| Announcer.AccessibilityAnnouncer.constructor | app/src/main/java/com/example/accessibilityservice/AccessibilityAnnouncer.kt:15-34 | an engine is requested, not yet initialised, nothing pending, no callback called |
| Announcer.AccessibilityAnnouncer.OnInit | app/src/main/java/com/example/accessibilityservice/AccessibilityAnnouncer.kt:39-61 | the `forEach` over the pending list yields the `onInit` transition |
| Announcer.AccessibilityAnnouncer.Announce | app/src/main/java/com/example/accessibilityservice/AccessibilityAnnouncer.kt:67-87 | yields the `announce` transition in flush mode |
| Announcer.AccessibilityAnnouncer.SpeakInternal | app/src/main/java/com/example/accessibilityservice/AccessibilityAnnouncer.kt:90-96 | speaks with QUEUE_FLUSH, or does nothing once the engine is gone |
| Announcer.AccessibilityAnnouncer.Shutdown | app/src/main/java/com/example/accessibilityservice/AccessibilityAnnouncer.kt:102-112 | yields the `shutdown` transition |
| Announcer.AccessibilityAnnouncer.OnStart | app/src/main/java/com/example/accessibilityservice/AccessibilityAnnouncer.kt:19-21 | calls `started` and changes nothing else |
| Announcer.AccessibilityAnnouncer.OnDone | app/src/main/java/com/example/accessibilityservice/AccessibilityAnnouncer.kt:23-25 | calls `finished` and changes nothing else |
| Announcer.AccessibilityAnnouncer.OnError | app/src/main/java/com/example/accessibilityservice/AccessibilityAnnouncer.kt:27-29 | calls `error` and changes nothing else |
| Announcer.PendingFlushKeepsOnlyLast | app/src/main/java/com/example/accessibilityservice/AccessibilityAnnouncer.kt:52-94 | in flush mode all pending texts are spoken in order, but after onInit the engine holds only the last one |
| LegacyAnnouncer.AccessibilityAnnouncer.constructor | app/src/main/java/AccessibilityAnnouncer.kt:11-15 | an engine is requested, not yet initialised, nothing pending |
| LegacyAnnouncer.AccessibilityAnnouncer.OnInit | app/src/main/java/AccessibilityAnnouncer.kt:20-42 | the `forEach` over the pending list yields the `onInit` transition |
| LegacyAnnouncer.AccessibilityAnnouncer.Announce | app/src/main/java/AccessibilityAnnouncer.kt:48-68 | yields the `announce` transition in add mode |
| LegacyAnnouncer.AccessibilityAnnouncer.SpeakInternal | app/src/main/java/AccessibilityAnnouncer.kt:70-76 | appends with QUEUE_ADD, or does nothing once the engine is gone |
| LegacyAnnouncer.AccessibilityAnnouncer.Shutdown | app/src/main/java/AccessibilityAnnouncer.kt:82-92 | yields the `shutdown` transition |
| LegacyAnnouncer.PendingQueueKeepsAll | app/src/main/java/AccessibilityAnnouncer.kt:33-74 | in add mode, after onInit the engine holds what it held followed by every pending text, in announcement order |

## Left out

- Android platform calls are not executed. This covers `rootInActiveWindow`, `findAccessibilityNodeInfosByViewId`, `performAction`, `performGlobalAction`, Bundles, Intents and `startActivity`. Each is a recorded `DeviceOp` or an input such as the window or the launchable set.
- A node action's platform id is abstracted to a `StandardAction` constructor. The platform's integer ids are not modelled. Global action ids use the public Android constants.
- `onServiceConnected` is not modelled. It configures the service, logs the global actions and installed packages, and calls `conversationManager.serviceConnected()` (MyAccessibilityService.kt:59). `ConversationManager.kt` declares no such method; the only `serviceConnected` in the source is `PermissionHelper.serviceConnected(context, callback)`, whose signature does not match, so that call is not part of this model.
- The logcat chunking in `onAccessibilityEvent` and every `Log` call are left out: they only log.
- `Json.encodeToString` and Gson's `fromJson` are foreign library calls. The JSON text a `ViewData` becomes is not modelled; `ScreenModel.Encode` keeps only which fields are serialised. The reply parser is a parameter returning null when Gson fails or yields null. Gson's bypassing of Kotlin constructor defaults is not modelled.
- `GeminiApiClient.kt` is not part of this model. Its asynchronous result is the `generate` parameter.
- `SpeechToTextListener.kt`, `PermissionHelper.kt` and `Constants.kt` are not part of this model. They are speech-recognition and permission wrappers, and prompt text with no behaviour.
- `RangeInfoData` is not modelled because it carries floats. The `rangeInfo` field is left out of `ViewData`.
- `synchronized` blocks, coroutines and the callbacks' threads are not modelled. Everything runs sequentially, and a network reply is delivered within the same call.
- The engine's playback timing is not modelled. `Tts.Engine` holds the utterances it has queued; nothing is ever removed by playing.
- The utterance id `hashCode() + "_" + currentTimeMillis()` is not modelled. No part of the announcer's behaviour depends on it.
- `MyAccessibilityService.kt:17` constructs `ConversationManager(this)`, but `ConversationManager.kt:12` declares no constructor parameter. `Conversation.ConversationManager.constructor` follows the class declaration.
- `ScreenTraversal.ToViewData` takes `uniqueId` from `hashCode()`. `findNodeById` compares the node's own `uniqueId` attribute. The two are separate fields here, and nothing assumes they coincide.
- `ConversationManager.kt` and `LLMInteractor.kt` both declare `LLMInteractor`, `ScreenResponse` and `ScreenResponseDeserializer` in the same package. They are separate modules here, `Conversation` and `Interactor`.
- ActionTables.ParsePair: `toInt()` also accepts non-ASCII Unicode decimal digits. The model accepts only '0'..'9', so such arguments fail here where the platform would parse them.
- Interactor.LlmInteractor.AskLlm: `System.currentTimeMillis()` is a 64-bit Long. The model uses unbounded integers, so overflow near Long.MAX_VALUE is not modelled.
- Platform calls inside the executor are taken to succeed. `startActivity`, `performAction` and `performGlobalAction` can throw (for example ActivityNotFoundException or SecurityException), and `executeAction`'s `catch (e: Exception)` would swallow those exceptions. The model records every such call as a performed `DeviceOp`, and `performAction`'s boolean result is not modelled.
- Conversation.ConversationManager.UiUpdated: `canRequestLLM` and `askLLM` each read `System.currentTimeMillis()`. The model uses one `now` for both reads, so it does not capture the time that passes between the check and the stamp.
