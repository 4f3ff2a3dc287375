/**
 The prompt builder of the inference path (app/core/prompt.py): a template
 chosen by family, applied to validated messages, and guarded against
 special tokens that must not appear in the text it hands on.
 */
module Prompt {
  import opened Base
  import opened Text
  import opened Schemas
  import opened Templates

  datatype PromptBuilder = PromptBuilder(family: string, template: PromptTemplate)

  /** `PromptBuilder(family)`: fails exactly when the family has no template. */
  function NewPromptBuilder(family: string): (r: Result<PromptBuilder>)
    ensures r.Ok? <==> family in {"llama", "llama3", "mistral", "phi", "qwen"}
    ensures r.Ok? ==> r.value.family == family && r.value.template.name == family
    ensures r.Ok? ==> Ok(r.value.template) == GetTemplate(family)
    ensures r.Err? ==> r.error.InvalidValue?
  {
    var t :- GetTemplate(family);
    Ok(PromptBuilder(family, t))
  }

  /** `[{"role": m.role, "content": m.content} for m in messages]`. */
  function ToTurns(messages: seq<Message>): (r: seq<Turn>)
    ensures |r| == |messages|
    ensures forall i :: 0 <= i < |r| ==> r[i] == Turn(Some(messages[i].role), messages[i].content)
  {
    seq(|messages|, i requires 0 <= i < |messages| => Turn(Some(messages[i].role), messages[i].content))
  }

  /** The special tokens the guards refuse, in the order they are checked. */
  const Bos := "<s>"
  const Eos := "</s>"
  const Llama3Bos := "<|begin_of_text|>"

  /** The text holds none of the refused tokens. */
  predicate LeakFree(p: string)
  {
    !Contains(p, Bos) && !Contains(p, Eos) && !Contains(p, Llama3Bos)
  }

  /**
   `PromptBuilder.build_prompt`: an empty list is a ValueError; otherwise
   the template's output, unless (after stripping leading whitespace) it
   contains `<s>`, `</s>` or `<|begin_of_text|>`, each a RuntimeError.
   */
  function Build(b: PromptBuilder, messages: seq<Message>): (r: Result<string>)
    ensures |messages| == 0 ==> r == Err(InvalidValue("Cannot build prompt from empty message list"))
    ensures r.Ok? <==> |messages| > 0 && LeakFree(BuildPrompt(b.template, ToTurns(messages)))
    ensures r.Ok? ==> r.value == BuildPrompt(b.template, ToTurns(messages))
    ensures r.Err? && |messages| > 0 ==> r.error.PromptLeak?
  {
    if |messages| == 0 then Err(InvalidValue("Cannot build prompt from empty message list"))
    else
      var prompt := BuildPrompt(b.template, ToTurns(messages));
      match LeakGuard(prompt)
      case Some(e) => Err(e)
      case None => Ok(prompt)
  }

  /**
   The three guards of `build_prompt` on the text with leading whitespace
   stripped, in order: the error of the first that fires, or none when the
   text is free of the refused tokens.
   */
  function LeakGuard(prompt: string): (r: Option<Error>)
    ensures r.None? <==> LeakFree(prompt)
    ensures r.Some? ==> r.value.PromptLeak?
  {
    var stripped := LStrip(prompt);
    StrippedGuard(prompt);
    if Bos <= stripped || Contains(stripped, Bos) then
      Some(PromptLeak("Invalid prompt: BOS token '<s>' leaked into prompt. PromptBuilder must NEVER emit BOS."))
    else if Contains(stripped, Eos) then
      Some(PromptLeak("Invalid prompt: EOS token '</s>' leaked into prompt. PromptBuilder must NEVER emit EOS."))
    else if Contains(stripped, Llama3Bos) then
      Some(PromptLeak("Invalid prompt: LLaMA3 BOS token leaked into prompt."))
    else None
  }

  /**
   The guard looks at the text with leading whitespace stripped; none of the
   refused tokens starts with whitespace, so stripping changes no verdict.
   */
  lemma StrippedGuard(p: string)
    ensures Contains(LStrip(p), Bos) == Contains(p, Bos)
    ensures Contains(LStrip(p), Eos) == Contains(p, Eos)
    ensures Contains(LStrip(p), Llama3Bos) == Contains(p, Llama3Bos)
    ensures Bos <= LStrip(p) ==> Contains(LStrip(p), Bos)
  {
    ContainsAfterLStrip(p, Bos);
    ContainsAfterLStrip(p, Eos);
    ContainsAfterLStrip(p, Llama3Bos);
    if Bos <= LStrip(p) {
      PrefixContained(LStrip(p), Bos);
    }
  }

  /** `get_stop_tokens`: a copy of the template's stop tokens. */
  function GetStopTokens(b: PromptBuilder): (r: seq<string>)
    ensures r == b.template.stopTokens
  {
    b.template.stopTokens
  }

  /** A builder for a registered family always has at least one stop token. */
  lemma BuilderHasStopTokens(family: string)
    requires NewPromptBuilder(family).Ok?
    ensures |GetStopTokens(NewPromptBuilder(family).value)| >= 1
  {
  }

  /**
   The guard rejects every prompt of the families whose template emits a
   BOS token: for llama, mistral and llama3 every non-empty message list
   fails, whatever the messages say.
   */
  lemma BosFamiliesAlwaysFail(family: string, messages: seq<Message>)
    requires family in {"llama", "mistral", "llama3"} && |messages| > 0
    ensures NewPromptBuilder(family).Ok?
    ensures Build(NewPromptBuilder(family).value, messages).Err?
    ensures Build(NewPromptBuilder(family).value, messages).error.PromptLeak?
  {
    var b := NewPromptBuilder(family).value;
    var p := BuildPrompt(b.template, ToTurns(messages));
    PrefixContained(p, b.template.bos);
    assert !LeakFree(p);
  }

  /**
   The phi template adds no `<` of its own, so messages whose contents hold
   no `<` always pass the guard and yield the template's output.
   */
  lemma PhiCleanMessagesPass(messages: seq<Message>)
    requires |messages| > 0 && forall i :: 0 <= i < |messages| ==> '<' !in messages[i].content
    ensures NewPromptBuilder("phi").Ok?
    ensures Build(NewPromptBuilder("phi").value, messages) == Ok(BuildPrompt(Phi, ToTurns(messages)))
  {
    var turns := ToTurns(messages);
    CharAbsent(Phi, turns, '<');
    var p := BuildPrompt(Phi, turns);
    MissingFirstCharNotContains(p, Bos);
    MissingFirstCharNotContains(p, Eos);
    MissingFirstCharNotContains(p, Llama3Bos);
    assert LeakFree(p);
    assert NewPromptBuilder("phi").value.template == Phi;
  }
}
