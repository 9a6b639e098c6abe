/** `ConversationManager.kt`: the conversation manager, together with the
    earlier revision of `LLMInteractor` and `ScreenResponse` that the same
    file declares (its reply carries actions as plain strings). */
module Conversation {
  import opened Wrappers
  import opened GeminiContent
  import Network
  import Prompts

  /** The earlier reply record; `actions` defaults to the empty list. */
  datatype ScreenResponse = ScreenResponse(responseType: string, text: string, actions: seq<string> := [])

  lemma ScreenResponseDefaults(responseType: string, text: string)
    ensures ScreenResponse(responseType, text).actions == []
  {
  }

  const RequestGapMillis: int := 3000

  /** The earlier `LLMInteractor`: the same strict 3000 ms rule. */
  class LlmInteractor {
    var lastRequestTime: int

    constructor()
      ensures lastRequestTime == 0
    {
      lastRequestTime := 0;
    }

    predicate CanRequestLlm(now: int)
      reads this
      ensures CanRequestLlm(now) ==> now > lastRequestTime
      ensures CanRequestLlm(now) <==> now >= lastRequestTime + RequestGapMillis + 1
    {
      now - lastRequestTime > RequestGapMillis
    }

    /** `askLLM`: stamp the time, send, and deliver the parsed reply, if any. */
    method AskLlm(prompt: seq<ContentPart>, now: int,
                  generate: seq<Content> -> Option<seq<Content>>,
                  parse: string -> Option<ScreenResponse>)
      returns (sent: seq<Content>, delivered: Option<ScreenResponse>)
      modifies this
      ensures lastRequestTime == now
      ensures forall later :: later <= now + RequestGapMillis ==> !CanRequestLlm(later)
      ensures sent == Network.ConversationContents(prompt)
      ensures var text := Network.ResponseText(generate(sent));
              delivered == if text.None? then None else parse(text.value)
    {
      lastRequestTime := now;
      var text;
      sent, text := Network.GetResponse(prompt, generate);
      delivered := if text.None? then None else parse(text.value);
    }
  }

  class ConversationManager {
    const llmInteractor: LlmInteractor

    constructor()
      ensures fresh(llmInteractor) && llmInteractor.lastRequestTime == 0
    {
      llmInteractor := new LlmInteractor();
    }

    /** `UIUpdated`: ask the model about the new screen only when the rate
      limit allows; the result handler ignores the reply. `sent` is the
      request that went out, if one did. */
    method UiUpdated(withJson: string, now: int,
                     generate: seq<Content> -> Option<seq<Content>>,
                     parse: string -> Option<ScreenResponse>)
      returns (sent: Option<seq<Content>>)
      modifies llmInteractor
      ensures old(llmInteractor.CanRequestLlm(now)) ==>
                && llmInteractor.lastRequestTime == now
                && sent == Some(Network.ConversationContents(Prompts.CreatePromptForUiScreenUpdated(withJson)))
      ensures !old(llmInteractor.CanRequestLlm(now)) ==>
                llmInteractor.lastRequestTime == old(llmInteractor.lastRequestTime) && sent == None
    {
      if llmInteractor.CanRequestLlm(now) {
        var contents, _ := llmInteractor.AskLlm(Prompts.CreatePromptForUiScreenUpdated(withJson), now, generate, parse);
        sent := Some(contents);
      } else {
        sent := None;
      }
    }

    /** `userVoiceInput`: an empty hook. */
    method UserVoiceInput()
      ensures unchanged(llmInteractor)
    {
    }
  }
}
