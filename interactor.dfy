/** `LLMInteractor` and `ScreenResponse` as `LLMInteractor.kt` declares them:
    the request rate limit and the decoded reply with typed actions. */
module Interactor {
  import opened Wrappers
  import opened DeviceActions
  import opened GeminiContent
  import Network

  /** The model's reply; `actions` defaults to the empty list. */
  datatype ScreenResponse = ScreenResponse(responseType: string, text: string, actions: seq<DeviceAction> := [])

  /** A reply built from its two required fields has no actions. */
  lemma ScreenResponseDefaults(responseType: string, text: string)
    ensures ScreenResponse(responseType, text).actions == []
  {
  }

  /** The minimum gap, in milliseconds, between two requests. */
  const RequestGapMillis: int := 3000

  /** `canRequestLLM`'s test, for a last request at `lastRequestTime`. */
  predicate RequestAllowed(lastRequestTime: int, now: int)
  {
    now - lastRequestTime > RequestGapMillis
  }

  /** The gap is strict: a request exactly 3000 ms after the last is refused,
      one a millisecond later is allowed. */
  lemma RequestGapIsStrict(lastRequestTime: int, now: int)
    ensures RequestAllowed(lastRequestTime, now) <==> now >= lastRequestTime + RequestGapMillis + 1
    ensures !RequestAllowed(lastRequestTime, lastRequestTime + RequestGapMillis)
  {
  }

  /** The callback `onResult` fires with the parsed reply only when the
      network delivered text; `parse` is Gson's `fromJson` (null when it
      throws). */
  function Delivered(text: Option<string>, parse: string -> Option<ScreenResponse>): (r: Option<ScreenResponse>)
    ensures text.None? ==> r.None?
    ensures text.Some? ==> r == parse(text.value)
  {
    match text
    case None => None
    case Some(t) => parse(t)
  }

  class LlmInteractor {
    var lastRequestTime: int

    constructor()
      ensures lastRequestTime == 0
    {
      lastRequestTime := 0;
    }

    /** `canRequestLLM`, at wall-clock time `now`; it reads and changes nothing else. */
    predicate CanRequestLlm(now: int)
      reads this
      ensures CanRequestLlm(now) ==> now > lastRequestTime
      ensures CanRequestLlm(now) <==> now >= lastRequestTime + RequestGapMillis + 1
    {
      RequestAllowed(lastRequestTime, now)
    }

    /** `askLLM`: stamp the request time, send the prompt, and hand the parsed
      reply (if any) to the result callback, returned here as `delivered`. */
    method AskLlm(prompt: seq<ContentPart>, now: int,
                  generate: seq<Content> -> Option<seq<Content>>,
                  parse: string -> Option<ScreenResponse>)
      returns (sent: seq<Content>, delivered: Option<ScreenResponse>)
      modifies this
      ensures lastRequestTime == now
      ensures forall later :: later <= now + RequestGapMillis ==> !CanRequestLlm(later)
      ensures sent == Network.ConversationContents(prompt)
      ensures delivered == Delivered(Network.ResponseText(generate(sent)), parse)
    {
      lastRequestTime := now;
      var text;
      sent, text := Network.GetResponse(prompt, generate);
      delivered := Delivered(text, parse);
    }
  }
}
