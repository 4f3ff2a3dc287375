/**
 The request and record schemas of the service and the bounds their
 validation enforces. Validation that the schema library performs when a
 request is parsed becomes an explicit function returning a `Result`.
 */
module Schemas {
  import opened Base

  /** The three roles a chat message may have. */
  datatype Role = System | User | Assistant

  function RoleName(r: Role): string
  {
    match r
    case System => "system"
    case User => "user"
    case Assistant => "assistant"
  }

  /** Parsing the `role` literal of a message: anything but the three names is refused. */
  function ParseRole(s: string): (r: Result<Role>)
    ensures r.Ok? <==> s == "system" || s == "user" || s == "assistant"
    ensures r.Ok? ==> RoleName(r.value) == s
  {
    if s == "system" then Ok(System)
    else if s == "user" then Ok(User)
    else if s == "assistant" then Ok(Assistant)
    else Err(InvalidValue("role must be one of system, user, assistant"))
  }

  datatype Message = Message(role: Role, content: string)

  /** Optional sampling options; `None` means "not given". Floats are reals. */
  datatype InferenceOptions = InferenceOptions(
    temperature: Option<real>,
    topP: Option<real>,
    topK: Option<int>,
    maxTokens: Option<int>,
    stop: Option<seq<string>>,
    repeatPenalty: Option<real>,
    presencePenalty: Option<real>,
    frequencyPenalty: Option<real>)

  /** No option given: the schema's defaults. */
  const NoOptions := InferenceOptions(None, None, None, None, None, None, None, None)

  /** A present real value lies within `lo` and, when given, `hi`. */
  predicate RealWithin(v: Option<real>, lo: real, hi: Option<real>)
  {
    v.None? || (lo <= v.value && (hi.None? || v.value <= hi.value))
  }

  predicate IntAtLeast(v: Option<int>, lo: int)
  {
    v.None? || lo <= v.value
  }

  /** Field-by-field validation of the options, in declaration order. */
  function ValidateOptions(o: InferenceOptions): (r: Result<InferenceOptions>)
    ensures r.Ok? ==> r.value == o
    ensures r.Ok? <==>
      && (o.temperature.Some? ==> 0.0 <= o.temperature.value <= 2.0)
      && (o.topP.Some? ==> 0.0 <= o.topP.value <= 1.0)
      && (o.topK.Some? ==> o.topK.value >= 0)
      && (o.maxTokens.Some? ==> o.maxTokens.value >= 1)
      && (o.repeatPenalty.Some? ==> o.repeatPenalty.value >= 0.0)
      && (o.presencePenalty.Some? ==> -2.0 <= o.presencePenalty.value <= 2.0)
      && (o.frequencyPenalty.Some? ==> -2.0 <= o.frequencyPenalty.value <= 2.0)
  {
    if !RealWithin(o.temperature, 0.0, Some(2.0)) then Err(InvalidValue("temperature"))
    else if !RealWithin(o.topP, 0.0, Some(1.0)) then Err(InvalidValue("top_p"))
    else if !IntAtLeast(o.topK, 0) then Err(InvalidValue("top_k"))
    else if !IntAtLeast(o.maxTokens, 1) then Err(InvalidValue("max_tokens"))
    else if !RealWithin(o.repeatPenalty, 0.0, None) then Err(InvalidValue("repeat_penalty"))
    else if !RealWithin(o.presencePenalty, -2.0, Some(2.0)) then Err(InvalidValue("presence_penalty"))
    else if !RealWithin(o.frequencyPenalty, -2.0, Some(2.0)) then Err(InvalidValue("frequency_penalty"))
    else Ok(o)
  }

  datatype ChatRequest = ChatRequest(
    model: string,
    messages: seq<Message>,
    sessionId: Option<string>,
    stream: bool,
    options: Option<InferenceOptions>)

  /** Options that are absent, or present and within their bounds. */
  function ValidateOptionalOptions(o: Option<InferenceOptions>): (r: Result<Option<InferenceOptions>>)
    ensures r.Ok? <==> o.None? || ValidateOptions(o.value).Ok?
    ensures r.Ok? ==> r.value == o
  {
    match o
    case None => Ok(None)
    case Some(opts) =>
      match ValidateOptions(opts)
      case Ok(v) => Ok(Some(v))
      case Err(e) => Err(e)
  }

  /**
   Building a chat request: at least one message is required, the message
   validator hands the list back unchanged, and the options must be in bounds.
   */
  function ValidateChatRequest(model: string, messages: seq<Message>, sessionId: Option<string>,
                               stream: bool, options: Option<InferenceOptions>): (r: Result<ChatRequest>)
    ensures r.Ok? <==> |messages| >= 1 && ValidateOptionalOptions(options).Ok?
    ensures r.Ok? ==> r.value == ChatRequest(model, messages, sessionId, stream, options)
  {
    if |messages| < 1 then Err(InvalidValue("At least one message required"))
    else
      var opts :- ValidateOptionalOptions(options);
      Ok(ChatRequest(model, messages, sessionId, stream, opts))
  }

  datatype GenerateRequest = GenerateRequest(
    model: string,
    prompt: string,
    stream: bool,
    options: Option<InferenceOptions>)

  function ValidateGenerateRequest(model: string, prompt: string, stream: bool,
                                   options: Option<InferenceOptions>): (r: Result<GenerateRequest>)
    ensures r.Ok? <==> |prompt| >= 1 && ValidateOptionalOptions(options).Ok?
    ensures r.Ok? ==> r.value == GenerateRequest(model, prompt, stream, options)
  {
    if |prompt| < 1 then Err(InvalidValue("prompt must not be empty"))
    else
      var opts :- ValidateOptionalOptions(options);
      Ok(GenerateRequest(model, prompt, stream, opts))
  }

  datatype EmbeddingRequest = EmbeddingRequest(model: string, input: string)

  function ValidateEmbeddingRequest(model: string, input: string): (r: Result<EmbeddingRequest>)
    ensures r.Ok? <==> |input| >= 1
    ensures r.Ok? ==> r.value == EmbeddingRequest(model, input)
  {
    if |input| < 1 then Err(InvalidValue("input must not be empty")) else Ok(EmbeddingRequest(model, input))
  }

  /** The JSON values that may appear in a model's `parameters` dictionary. */
  datatype ParamValue = Number(n: real) | Integer(i: int) | Text(s: string) | Flag(b: bool)

  /** The contents of a model's `config.json`. */
  datatype ModelConfig = ModelConfig(
    name: string,
    family: string,
    quantization: string,
    contextSize: int,
    template: string,
    parameters: map<string, ParamValue>)

  /** A registered model as the registry reports it. */
  datatype ModelInfo = ModelInfo(
    name: string,
    family: string,
    sizeMb: Option<int>,
    quantization: string,
    contextSize: int,
    template: string,
    parameters: map<string, ParamValue>,
    loaded: bool)
}
