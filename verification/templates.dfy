/**
 The explicit prompt templates of the model families (app/core/templates.py).

 A format string `"<before>{content}<after>"` with one `{content}` field is
 the pair of its two literal parts; formatting puts the content between them
 and the text before the field is the generation prefix.
 */
module Templates {
  import opened Base
  import opened Seqs
  import opened Text
  import opened Schemas

  /** A one-field format string: `before + "{content}" + after`. */
  datatype Format = Format(before: string, after: string)

  /** `fmt.format(content=content)`. */
  function Render(f: Format, content: string): string
  {
    f.before + content + f.after
  }

  datatype PromptTemplate = PromptTemplate(
    name: string,
    system: Format,
    user: Format,
    assistant: Format,
    bos: string,
    eos: string,
    stopTokens: seq<string>)

  /**
   A message as the template sees it: its role (`None` for a role string
   other than "system", "user" and "assistant") and its content.
   */
  datatype Turn = Turn(role: Option<Role>, content: string)

  /** The dictionary `{"role": role, "content": content}` as a turn. */
  function TurnOf(role: string, content: string): (m: Turn)
    ensures m.role.Some? <==> role in {"system", "user", "assistant"}
    ensures m.role.Some? ==> RoleName(m.role.value) == role
    ensures m.content == content
  {
    match ParseRole(role)
    case Ok(r) => Turn(Some(r), content)
    case Err(_) => Turn(None, content)
  }

  const Llama := PromptTemplate(
    "llama",
    Format("<<SYS>>\n", "\n<</SYS>>\n\n"),
    Format("[INST] ", " [/INST]"),
    Format("", "</s>"),
    "<s>", "</s>", ["</s>", "[INST]"])

  const Llama3 := PromptTemplate(
    "llama3",
    Format("<|start_header_id|>system<|end_header_id|>\n\n", "<|eot_id|>"),
    Format("<|start_header_id|>user<|end_header_id|>\n\n", "<|eot_id|>"),
    Format("<|start_header_id|>assistant<|end_header_id|>\n\n", "<|eot_id|>"),
    "<|begin_of_text|>", "<|eot_id|>", ["<|eot_id|>"])

  const Mistral := PromptTemplate(
    "mistral",
    Format("<<SYS>>\n", "\n<</SYS>>\n\n"),
    Format("[INST] ", " [/INST]"),
    Format("", "</s>"),
    "<s>", "</s>", ["</s>"])

  const Phi := PromptTemplate(
    "phi",
    Format("### System:\n", "\n\n"),
    Format("### Instruction:\n", "\n\n"),
    Format("### Response:\n", "\n\n"),
    "", "", ["###"])

  const Qwen := PromptTemplate(
    "qwen",
    Format("<|im_start|>system\n", "<|im_end|>\n"),
    Format("<|im_start|>user\n", "<|im_end|>\n"),
    Format("<|im_start|>assistant\n", "<|im_end|>\n"),
    "", "<|im_end|>", ["<|im_end|>"])

  /** The registry `TEMPLATES`, keyed by family. */
  const TemplateTable: map<string, PromptTemplate> :=
    map["llama" := Llama, "llama3" := Llama3, "mistral" := Mistral, "phi" := Phi, "qwen" := Qwen]

  /** `get_template`: the registered template, or a ValueError; never a guess. */
  function GetTemplate(family: string): (r: Result<PromptTemplate>)
    ensures r.Ok? <==> family in {"llama", "llama3", "mistral", "phi", "qwen"}
    ensures r.Ok? ==> r.value.name == family && |r.value.stopTokens| >= 1
    ensures r.Ok? ==> r.value.eos in r.value.stopTokens || r.value.eos == ""
    ensures r.Err? ==> r.error.InvalidValue?
  {
    if family == "llama" then Ok(Llama)
    else if family == "llama3" then Ok(Llama3)
    else if family == "mistral" then Ok(Mistral)
    else if family == "phi" then Ok(Phi)
    else if family == "qwen" then Ok(Qwen)
    else Err(InvalidValue(
      "No template found for family '" + family + "'. " +
      "Available families: ['llama', 'llama3', 'mistral', 'phi', 'qwen']. " +
      "Templates MUST be explicit - guessing is not allowed."))
  }

  /** The format string a role is rendered with. */
  function RoleFormat(t: PromptTemplate, role: Role): Format
  {
    match role
    case System => t.system
    case User => t.user
    case Assistant => t.assistant
  }

  /** One message: its role's format around the content; other roles add nothing. */
  function RenderTurn(t: PromptTemplate, m: Turn): (r: string)
    ensures m.role.None? ==> r == ""
    ensures m.role.Some? ==>
      var f := RoleFormat(t, m.role.value);
      |r| == |f.before| + |m.content| + |f.after| && f.before <= r && r[|r| - |f.after|..] == f.after
    ensures m.role.Some? ==> Contains(r, m.content)
  {
    match m.role
    case Some(role) =>
      var f := RoleFormat(t, role);
      PrefixContained(m.content, m.content);
      ContainsInfix(f.before, m.content, f.after, m.content);
      Render(f, m.content)
    case None => ""
  }

  /**
   The messages rendered one after the other, in input order, so the
   content of every system, user or assistant message appears in it.
   */
  function RenderAll(t: PromptTemplate, msgs: seq<Turn>): (r: string)
    ensures |msgs| == 0 ==> r == ""
    ensures forall i :: 0 <= i < |msgs| && msgs[i].role.Some? ==> Contains(r, msgs[i].content)
    decreases |msgs|
  {
    if |msgs| == 0 then ""
    else
      var init := msgs[..|msgs| - 1];
      ContainsExtend(RenderAll(t, init), RenderTurn(t, msgs[|msgs| - 1]));
      assert forall i :: 0 <= i < |init| ==> init[i] == msgs[i];
      RenderAll(t, init) + RenderTurn(t, msgs[|msgs| - 1])
  }

  /** Messages whose role is none of system, user and assistant render as nothing. */
  lemma {:induction false} UnknownRolesRenderNothing(t: PromptTemplate, msgs: seq<Turn>)
    requires forall i :: 0 <= i < |msgs| ==> msgs[i].role.None?
    ensures RenderAll(t, msgs) == ""
    decreases |msgs|
  {
    if |msgs| > 0 {
      UnknownRolesRenderNothing(t, msgs[..|msgs| - 1]);
    }
  }

  /**
   The generation prefix: the assistant format's text before `{content}`,
   added exactly when there are messages and the last one is not the
   assistant's; otherwise nothing.
   */
  function GenerationPrefix(t: PromptTemplate, msgs: seq<Turn>): (r: string)
    ensures r == "" || r == t.assistant.before
    ensures |msgs| > 0 && msgs[|msgs| - 1].role != Some(Assistant) ==> r == t.assistant.before
    ensures |msgs| == 0 || msgs[|msgs| - 1].role == Some(Assistant) ==> r == ""
  {
    if |msgs| > 0 && msgs[|msgs| - 1].role != Some(Assistant) then t.assistant.before else ""
  }

  /** `PromptTemplate.build_prompt`. */
  function BuildPrompt(t: PromptTemplate, msgs: seq<Turn>): (r: string)
    ensures t.bos <= r
    ensures |msgs| == 0 ==> r == t.bos
    ensures |msgs| > 0 && msgs[|msgs| - 1].role != Some(Assistant) ==>
      |t.assistant.before| <= |r| && r[|r| - |t.assistant.before|..] == t.assistant.before
    ensures |msgs| > 0 && msgs[|msgs| - 1].role == Some(Assistant) ==>
      var last := Render(t.assistant, msgs[|msgs| - 1].content);
      |last| <= |r| && r[|r| - |last|..] == last
  {
    t.bos + RenderAll(t, msgs) + GenerationPrefix(t, msgs)
  }

  /** Rendering a concatenation renders the two parts one after the other. */
  lemma {:induction false} RenderAllAppend(t: PromptTemplate, a: seq<Turn>, b: seq<Turn>)
    ensures RenderAll(t, a + b) == RenderAll(t, a) + RenderAll(t, b)
    decreases |b|
  {
    if |b| == 0 {
      assert a + b == a;
    } else {
      var init := b[..|b| - 1];
      var last := RenderTurn(t, b[|b| - 1]);
      assert (a + b)[..|a + b| - 1] == a + init;
      assert (a + b)[|a + b| - 1] == b[|b| - 1];
      RenderAllAppend(t, a, init);
      assert RenderAll(t, a + b) == RenderAll(t, a + init) + last;
      assert RenderAll(t, b) == RenderAll(t, init) + last;
      Assoc(RenderAll(t, a), RenderAll(t, init), last);
    }
  }

  /** A single message renders as its own turn. */
  lemma RenderOne(t: PromptTemplate, m: Turn)
    ensures RenderAll(t, [m]) == RenderTurn(t, m)
  {
    assert [m][..0] == [];
    assert RenderAll(t, [m]) == RenderAll(t, []) + RenderTurn(t, m);
  }

  /**
   The prompt is the BOS text, then each message in its place in input
   order, then the generation prefix: message `i` sits between the
   rendering of the messages before it and of those after it.
   */
  lemma TurnInPlace(t: PromptTemplate, msgs: seq<Turn>, i: nat)
    requires i < |msgs|
    ensures BuildPrompt(t, msgs) ==
      t.bos + RenderAll(t, msgs[..i]) + RenderTurn(t, msgs[i]) + RenderAll(t, msgs[i + 1..]) + GenerationPrefix(t, msgs)
  {
    var pre := RenderAll(t, msgs[..i]);
    var one := RenderTurn(t, msgs[i]);
    var post := RenderAll(t, msgs[i + 1..]);
    var gen := GenerationPrefix(t, msgs);
    SplitAt(msgs, i);
    RenderAllAppend(t, msgs[..i], [msgs[i]] + msgs[i + 1..]);
    RenderAllAppend(t, [msgs[i]], msgs[i + 1..]);
    RenderOne(t, msgs[i]);
    assert RenderAll(t, msgs) == pre + (one + post);
    assert BuildPrompt(t, msgs) == t.bos + (pre + (one + post)) + gen;
    Assoc(pre, one, post);
    Assoc(t.bos, pre + one, post);
    Assoc(t.bos, pre, one);
  }

  /** The content of every system, user or assistant message appears in the prompt. */
  lemma ContentAppears(t: PromptTemplate, msgs: seq<Turn>, i: nat)
    requires i < |msgs| && msgs[i].role.Some?
    ensures Contains(BuildPrompt(t, msgs), msgs[i].content)
  {
    TurnInPlace(t, msgs, i);
    var before := t.bos + RenderAll(t, msgs[..i]);
    var one := RenderTurn(t, msgs[i]);
    var post := RenderAll(t, msgs[i + 1..]);
    var gen := GenerationPrefix(t, msgs);
    assert BuildPrompt(t, msgs) == before + one + post + gen;
    Assoc(before + one, post, gen);
    ContainsInfix(before, one, post + gen, msgs[i].content);
  }

  /** A character found in no part of the template and in no content is not in the prompt. */
  lemma {:induction false} CharAbsent(t: PromptTemplate, msgs: seq<Turn>, c: char)
    requires c !in t.bos
    requires c !in t.system.before && c !in t.system.after && c !in t.user.before && c !in t.user.after
    requires c !in t.assistant.before && c !in t.assistant.after
    requires forall i :: 0 <= i < |msgs| ==> c !in msgs[i].content
    ensures c !in BuildPrompt(t, msgs)
    decreases |msgs|
  {
    RenderedCharAbsent(t, msgs, c);
  }

  /** The rendered messages hold no character absent from every format and content. */
  lemma {:induction false} RenderedCharAbsent(t: PromptTemplate, msgs: seq<Turn>, c: char)
    requires c !in t.system.before && c !in t.system.after && c !in t.user.before && c !in t.user.after
    requires c !in t.assistant.before && c !in t.assistant.after
    requires forall i :: 0 <= i < |msgs| ==> c !in msgs[i].content
    ensures c !in RenderAll(t, msgs)
    decreases |msgs|
  {
    if |msgs| > 0 {
      RenderedCharAbsent(t, msgs[..|msgs| - 1], c);
      assert c !in msgs[|msgs| - 1].content;
    }
  }

  /** A single user message under the llama template: `<s>`, then the content between `[INST] ` and ` [/INST]`. */
  lemma LlamaSingleUser(content: string)
    ensures BuildPrompt(Llama, [Turn(Some(User), content)]) == "<s>" + ("[INST] " + content + " [/INST]")
  {
    RenderOne(Llama, Turn(Some(User), content));
  }

  /**
   The llama prompt of a single user message starts with `<s>[INST]` and,
   for content without `<`, holds `<s>` only at its start.
   */
  lemma LlamaSingleBos(content: string)
    ensures "<s>[INST]" <= BuildPrompt(Llama, [Turn(Some(User), content)])
    ensures '<' !in content ==> !Contains(BuildPrompt(Llama, [Turn(Some(User), content)])[1..], "<s>")
  {
    LlamaSingleUser(content);
    var body := "[INST] " + content + " [/INST]";
    PrefixOfAppend("<s>", "[INST]", "[INST] " + content, " [/INST]");
    assert "[INST]" <= "[INST] " + content;
    assert "<s>" + "[INST]" == "<s>[INST]";
    if '<' !in content {
      NotInAppend('<', "[INST] ", content);
      NotInAppend('<', "[INST] " + content, " [/INST]");
      DropAppend("<s>", body, 1);
      assert "<s>"[1..] == "s>";
      NotInAppend('<', "s>", body);
      MissingFirstCharNotContains(("<s>" + body)[1..], "<s>");
    }
  }

  /**
   `get_template` returns exactly the registered template of a family in the
   registry, so every registered template carries its own family name and at
   least one stop token.
   */
  lemma TemplatesWellFormed(family: string)
    ensures family in TemplateTable <==> GetTemplate(family).Ok?
    ensures family in TemplateTable ==> GetTemplate(family).value == TemplateTable[family]
    ensures family in TemplateTable ==>
      TemplateTable[family].name == family && |TemplateTable[family].stopTokens| >= 1
  {
  }
}
