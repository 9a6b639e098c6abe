/** The request and response records exchanged with the Gemini client. The
    client itself (`GeminiApiClient.generateContent`) is not part of this
    model; its eventual result is a parameter wherever it is needed. */
module GeminiContent {

  /** `ContentPart`: one text segment of a prompt or a reply. */
  datatype ContentPart = ContentPart(text: string)

  /** `Content`: the parts of one turn and the role that speaks them. */
  datatype Content = Content(parts: seq<ContentPart>, role: string)
}
