/** `NetworkService`: building the request contents from a prompt and
    extracting the reply text from the client's result. */
module Network {
  import opened Wrappers
  import opened GeminiContent

  const UserRole: string := "user"

  /** Specification of `makeConversationContents`: one entry per prompt part,
      each carrying the whole prompt (not just that part) as the user's turn. */
  function ConversationContents(prompt: seq<ContentPart>): (contents: seq<Content>)
    ensures |contents| == |prompt|
    ensures forall i :: 0 <= i < |contents| ==> contents[i].parts == prompt && contents[i].role == UserRole
  {
    seq(|prompt|, _ => Content(prompt, UserRole))
  }

  /** `makeConversationContents`: the `for` loop filling a mutable list. */
  method MakeConversationContents(prompt: seq<ContentPart>) returns (contents: seq<Content>)
    ensures contents == ConversationContents(prompt)
    ensures forall i, j :: 0 <= i < j < |contents| ==> contents[i] == contents[j]
  {
    contents := [];
    for k := 0 to |prompt|
      invariant |contents| == k
      invariant forall i :: 0 <= i < k ==> contents[i] == Content(prompt, UserRole)
    {
      contents := contents + [Content(prompt, UserRole)];
    }
  }

  /** The text handed to `getResponse`'s callback:
      `response?.lastOrNull()?.parts?.firstOrNull()?.text`. */
  function ResponseText(result: Option<seq<Content>>): (text: Option<string>)
    ensures text.Some? <==> result.Some? && |result.value| > 0 && |result.value[|result.value| - 1].parts| > 0
    ensures text.Some? ==> text.value == result.value[|result.value| - 1].parts[0].text
  {
    match result
    case None => None
    case Some(contents) =>
      if |contents| == 0 then None
      else
        var last := contents[|contents| - 1];
        if |last.parts| == 0 then None else Some(last.parts[0].text)
  }

  /** `getResponse`: send the contents built from the prompt; `generate` is
      what the Gemini client eventually delivers for them (null on any
      transport or decoding failure). */
  method GetResponse(prompt: seq<ContentPart>, generate: seq<Content> -> Option<seq<Content>>)
    returns (sent: seq<Content>, text: Option<string>)
    ensures sent == ConversationContents(prompt)
    ensures text == ResponseText(generate(sent))
  {
    sent := MakeConversationContents(prompt);
    text := ResponseText(generate(sent));
  }
}
