/** `PromptCreator`: the prompt sent when the screen changes. */
module Prompts {
  import opened GeminiContent

  /** The fixed instruction that precedes the screen's JSON. */
  const InitialPrompt: string :=
    "This is the JSON for Android Accessibility UI hierarchy.\n" +
    "You are a screen reading assistant, summarize the UI of the screen for the user. Give me a response in the following JSON format.\n" +
    "{ \"text\": \" What you have to say\"} \n"

  /** `createPromptForUIScreenUpdated`: the instruction, then the JSON verbatim. */
  function CreatePromptForUiScreenUpdated(screenData: string): (prompt: seq<ContentPart>)
    ensures |prompt| == 2
    ensures prompt[0].text == InitialPrompt
    ensures prompt[|prompt| - 1].text == screenData
  {
    [ContentPart(InitialPrompt), ContentPart(screenData)]
  }

  /** The instruction does not depend on the screen, and the screen data can
      be read back from the prompt: two prompts are equal exactly when their
      screens are. */
  lemma PromptDeterminesScreenData(a: string, b: string)
    ensures CreatePromptForUiScreenUpdated(a)[0] == CreatePromptForUiScreenUpdated(b)[0]
    ensures CreatePromptForUiScreenUpdated(a) == CreatePromptForUiScreenUpdated(b) <==> a == b
  {
    if CreatePromptForUiScreenUpdated(a) == CreatePromptForUiScreenUpdated(b) {
      assert CreatePromptForUiScreenUpdated(a)[1].text == a;
    }
  }
}
