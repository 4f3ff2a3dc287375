/**
 The inference service (app/services/inference.py): the model is fetched
 through the model cache, the request's options are merged over the
 configured defaults, and the backend's tokens are passed on unchanged. The
 backend's generation is an opaque function; the configured defaults are a
 parameter.
 */
module Inference {
  import opened Base
  import opened Schemas
  import opened Registry
  import opened ModelLoader
  import opened Streaming

  /** The configured generation defaults (`default_temperature` and friends). */
  datatype Settings = Settings(defaultTemperature: real, defaultTopP: real, defaultMaxTokens: int)

  /** The complete options dictionary `_merge_options` returns. */
  datatype MergedOptions = MergedOptions(
    temperature: real,
    topP: real,
    maxTokens: int,
    topK: int,
    repeatPenalty: real,
    stop: Option<seq<string>>)

  const DefaultTopK: int := 40
  const DefaultRepeatPenalty: real := 1.1

  /** The merged options before any request option is applied. */
  function Defaults(settings: Settings): (r: MergedOptions)
    ensures r.temperature == settings.defaultTemperature && r.topP == settings.defaultTopP
    ensures r.maxTokens == settings.defaultMaxTokens
    ensures r.topK == 40 && r.repeatPenalty == 1.1 && r.stop == None
  {
    MergedOptions(settings.defaultTemperature, settings.defaultTopP, settings.defaultMaxTokens,
                  DefaultTopK, DefaultRepeatPenalty, None)
  }

  /**
   `_merge_options`: the defaults, each overridden by the corresponding
   request option when that option is given. The penalties have no slot.
   */
  function MergeOptions(settings: Settings, options: Option<InferenceOptions>): (r: MergedOptions)
    ensures options.None? ==> r == Defaults(settings)
    ensures options.Some? ==>
      && r.temperature == options.value.temperature.GetOr(settings.defaultTemperature)
      && r.topP == options.value.topP.GetOr(settings.defaultTopP)
      && r.maxTokens == options.value.maxTokens.GetOr(settings.defaultMaxTokens)
      && r.topK == options.value.topK.GetOr(40)
      && r.repeatPenalty == options.value.repeatPenalty.GetOr(1.1)
      && r.stop == options.value.stop
  {
    var d := Defaults(settings);
    match options
    case None => d
    case Some(o) =>
      d.(temperature := o.temperature.GetOr(d.temperature))
       .(topP := o.topP.GetOr(d.topP))
       .(maxTokens := o.maxTokens.GetOr(d.maxTokens))
       .(topK := o.topK.GetOr(d.topK))
       .(repeatPenalty := o.repeatPenalty.GetOr(d.repeatPenalty))
       .(stop := if o.stop.Some? then o.stop else d.stop)
  }

  /** Options with no field given merge to the defaults, as no options at all do. */
  lemma EmptyOptionsAreDefaults(settings: Settings)
    ensures MergeOptions(settings, Some(NoOptions)) == MergeOptions(settings, None)
  {
  }

  /** The presence and frequency penalties never influence the merged options. */
  lemma PenaltiesIgnored(settings: Settings, o: InferenceOptions, presence: Option<real>, frequency: Option<real>)
    ensures MergeOptions(settings, Some(o.(presencePenalty := presence, frequencyPenalty := frequency)))
         == MergeOptions(settings, Some(o))
  {
  }

  /** Giving the temperature changes the temperature and nothing else. */
  lemma TemperatureOverridesOnlyItself(settings: Settings, o: InferenceOptions, t: real)
    ensures MergeOptions(settings, Some(o.(temperature := Some(t))))
         == MergeOptions(settings, Some(o)).(temperature := t)
  {
  }

  /** Giving `top_k` changes `top_k` and nothing else. */
  lemma TopKOverridesOnlyItself(settings: Settings, o: InferenceOptions, k: int)
    ensures MergeOptions(settings, Some(o.(topK := Some(k))))
         == MergeOptions(settings, Some(o)).(topK := k)
  {
  }

  /** The arguments of the backend's `generate` call. */
  datatype GenerationRequest = GenerationRequest(
    prompt: string,
    maxTokens: int,
    temperature: real,
    topP: real,
    topK: int,
    repeatPenalty: real,
    stop: Option<seq<string>>,
    stream: bool)

  /** What the backend produces: tokens, then the message of the exception it raises, if any. */
  datatype Generation = Generation(tokens: seq<string>, failure: Option<string>)

  /** The request `infer` hands the backend: merged sampling options, the caller's stop tokens. */
  function RequestFor(prompt: string, stopTokens: Option<seq<string>>, merged: MergedOptions, stream: bool): (r: GenerationRequest)
    ensures r.prompt == prompt && r.stop == stopTokens && r.stream == stream
    ensures r.maxTokens == merged.maxTokens && r.temperature == merged.temperature && r.topP == merged.topP
    ensures r.topK == merged.topK && r.repeatPenalty == merged.repeatPenalty
  {
    GenerationRequest(prompt, merged.maxTokens, merged.temperature, merged.topP, merged.topK,
                      merged.repeatPenalty, stopTokens, stream)
  }

  /**
   `infer`: the model comes from the cache, whose errors reach the caller
   unchanged before any token; the backend's tokens are yielded in order,
   and an exception it raises becomes an InferenceError naming the model.
   */
  function Infer(l: Loader, reg: ModelRegistry, settings: Settings, modelName: string, prompt: string,
                 stopTokens: Option<seq<string>>, options: Option<InferenceOptions>, stream: bool,
                 load: string -> LoadAttempt, generate: (Handle, GenerationRequest) -> Generation): (s: Step<TokenSource>)
    requires ModelLoader.Valid(l) && Registry.Valid(reg)
    ensures ModelLoader.Valid(s.loader) && Registry.Valid(s.registry)
    ensures var fetched := GetOrLoadModel(l, reg, modelName, load);
      && s.loader == fetched.loader && s.registry == fetched.registry && s.closed == fetched.closed
      && (fetched.result.Err? ==> s.result == TokenSource([], Some(fetched.result.error)))
      && (fetched.result.Ok? ==>
            var g := generate(fetched.result.value, RequestFor(prompt, stopTokens, MergeOptions(settings, options), stream));
            && s.result.tokens == g.tokens
            && (s.result.failure.Some? <==> g.failure.Some?)
            && (g.failure.Some? ==> s.result.failure == Some(InferenceFailed(modelName, "Inference failed: " + g.failure.value))))
  {
    var fetched := GetOrLoadModel(l, reg, modelName, load);
    match fetched.result
    case Err(e) => Step(fetched.loader, fetched.registry, TokenSource([], Some(e)), fetched.closed)
    case Ok(model) =>
      var g := generate(model, RequestFor(prompt, stopTokens, MergeOptions(settings, options), stream));
      var failure := match g.failure
        case None => None
        case Some(reason) => Some(InferenceFailed(modelName, "Inference failed: " + reason));
      Step(fetched.loader, fetched.registry, TokenSource(g.tokens, failure), fetched.closed)
  }

  /**
   The `stop` option is merged but never used: generation is stopped by the
   caller's stop tokens, so two requests that differ only in `options.stop`
   behave the same.
   */
  lemma StopOptionIgnored(l: Loader, reg: ModelRegistry, settings: Settings, modelName: string, prompt: string,
                          stopTokens: Option<seq<string>>, o: InferenceOptions, stop: Option<seq<string>>, stream: bool,
                          load: string -> LoadAttempt, generate: (Handle, GenerationRequest) -> Generation)
    requires ModelLoader.Valid(l) && Registry.Valid(reg)
    ensures Infer(l, reg, settings, modelName, prompt, stopTokens, Some(o.(stop := stop)), stream, load, generate)
         == Infer(l, reg, settings, modelName, prompt, stopTokens, Some(o), stream, load, generate)
  {
    assert RequestFor(prompt, stopTokens, MergeOptions(settings, Some(o.(stop := stop))), stream)
        == RequestFor(prompt, stopTokens, MergeOptions(settings, Some(o)), stream);
  }

  /** An unregistered model yields no tokens and the registry's error, and touches no state. */
  lemma UnknownModelFailsFirst(l: Loader, reg: ModelRegistry, settings: Settings, modelName: string, prompt: string,
                               stopTokens: Option<seq<string>>, options: Option<InferenceOptions>, stream: bool,
                               load: string -> LoadAttempt, generate: (Handle, GenerationRequest) -> Generation)
    requires ModelLoader.Valid(l) && Registry.Valid(reg)
    requires modelName !in l.cache.values && modelName !in reg.models.values
    ensures Infer(l, reg, settings, modelName, prompt, stopTokens, options, stream, load, generate)
         == Step(l, reg, TokenSource([], Some(ModelNotFound(modelName))), [])
  {
  }
}
