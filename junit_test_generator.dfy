/**
 * Asking a language model for a JUnit test: the fixed prompt, the call to the
 * model, and their composition `generate_junit_test`.
 */
module JunitTestGenerator {
  import opened Wrappers
  import opened Text

  /** The instruction that precedes the method code in every prompt. */
  const Instruction: string :=
    "You are a senior Java developer. "
    + "Write a JUnit 5 test for the following Java method. "
    + "Include parameterized tests and Mockito when helpful."

  /** Everything in the prompt before the method code: the instruction and a blank line. */
  const PromptPrefix: string := Instruction + "\n\n"

  /** `_craft_prompt`: the prefix, then the method code verbatim. */
  function CraftPrompt(methodCode: string): (prompt: string)
    ensures |prompt| == |PromptPrefix| + |methodCode|
    ensures prompt[..|PromptPrefix|] == PromptPrefix
    ensures prompt[|PromptPrefix|..] == methodCode
  {
    PromptPrefix + methodCode
  }

  /** The method code a prompt was made from, if it was made by `CraftPrompt`. */
  function MethodCodeOf(prompt: string): (r: Option<string>)
    ensures r.Some? ==> |prompt| == |PromptPrefix| + |r.value|
  {
    if |PromptPrefix| <= |prompt| && prompt[..|PromptPrefix|] == PromptPrefix
    then Some(prompt[|PromptPrefix|..])
    else None
  }

  /** The method code can be read back from the prompt. */
  lemma PromptRoundTrip(methodCode: string)
    ensures MethodCodeOf(CraftPrompt(methodCode)) == Some(methodCode)
  {
  }

  /** A prompt from which method code can be read back is the prompt of that code. */
  lemma PromptFromCode(prompt: string, methodCode: string)
    requires MethodCodeOf(prompt) == Some(methodCode)
    ensures CraftPrompt(methodCode) == prompt
  {
    assert prompt == prompt[..|PromptPrefix|] + prompt[|PromptPrefix|..];
  }

  /** Distinct method code gives distinct prompts. */
  lemma CraftPromptInjective(a: string, b: string)
    requires CraftPrompt(a) == CraftPrompt(b)
    ensures a == b
  {
    PromptRoundTrip(a);
    PromptRoundTrip(b);
  }

  /**
   * The text-generation backend. `NoBackend` is the case where the chat-model
   * library could not be imported; `ChatModel(reply)` gives the content of the
   * model's answer to a prompt.
   */
  datatype Backend = NoBackend | ChatModel(reply: string -> string)

  /** `_call_llm`: the stripped reply, or the empty string without a backend. */
  function CallLlm(backend: Backend, prompt: string): (r: string)
    ensures IsStripped(r)
    ensures backend.NoBackend? ==> r == ""
    ensures backend.ChatModel? ==> r == Strip(backend.reply(prompt))
  {
    match backend
    case NoBackend => ""
    case ChatModel(reply) => Strip(reply(prompt))
  }

  /**
   * `generate_junit_test`: `CallLlm` applied to `CraftPrompt(methodCode)`. With
   * no backend every method gets the empty test; with one, the test is the
   * stripped reply to the instruction followed by the method code.
   */
  function GenerateJunitTest(backend: Backend, methodCode: string): (r: string)
    ensures IsStripped(r)
    ensures backend.NoBackend? ==> r == ""
    ensures backend.ChatModel? ==> r == Strip(backend.reply(PromptPrefix + methodCode))
  {
    CallLlm(backend, CraftPrompt(methodCode))
  }
}
