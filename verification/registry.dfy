/**
 The in-memory model registry (app/models/registry.py): registered models by
 name, in registration order. Directory scanning and JSON reading are I/O;
 their outcomes come in as parameters.
 */
module Registry {
  import opened Base
  import opened Schemas
  import opened OrderedMaps

  datatype ModelRegistry = ModelRegistry(models: OrderedMap<ModelInfo>)

  ghost predicate Valid(reg: ModelRegistry)
  {
    OrderedMaps.Valid(reg.models)
  }

  function EmptyRegistry(): (reg: ModelRegistry)
    ensures Valid(reg) && |reg.models.order| == 0
  {
    ModelRegistry(OrderedMaps.Empty())
  }

  /** `get_model`: the registered record, or ModelNotFoundError. */
  function GetModel(reg: ModelRegistry, name: string): (r: Result<ModelInfo>)
    ensures r.Ok? <==> name in reg.models.values
    ensures r.Ok? ==> r.value == reg.models.values[name]
    ensures r.Err? ==> r.error == ModelNotFound(name)
  {
    match OrderedMaps.Get(reg.models, name)
    case Some(info) => Ok(info)
    case None => Err(ModelNotFound(name))
  }

  /** `list_models`: the registered records in registration order. */
  function ListModels(reg: ModelRegistry): (r: seq<ModelInfo>)
    requires Valid(reg)
    ensures |r| == |reg.models.order|
    ensures forall i :: 0 <= i < |r| ==> r[i] == reg.models.values[reg.models.order[i]]
    ensures forall name :: name in reg.models.values ==> reg.models.values[name] in r
  {
    var order := reg.models.order;
    assert forall name :: name in reg.models.values ==> exists i :: 0 <= i < |order| && order[i] == name;
    seq(|order|, i requires 0 <= i < |order| => reg.models.values[order[i]])
  }

  /** Bytes to whole mebibytes, as `st_size // (1024 * 1024)`. */
  function SizeMb(bytes: nat): nat
  {
    bytes / 1048576
  }

  /**
   `register_model`: the record is built from the config with `loaded=False`
   and the file size in whole MiB (0 when the file is missing), and stored
   under the given name, replacing any earlier record of that name.
   */
  function RegisterModel(reg: ModelRegistry, name: string, fileBytes: Option<nat>, config: ModelConfig): (r: (ModelRegistry, ModelInfo))
    requires Valid(reg)
    ensures Valid(r.0)
    ensures r.1.name == config.name && r.1.family == config.family
    ensures r.1.quantization == config.quantization && r.1.contextSize == config.contextSize
    ensures r.1.template == config.template && r.1.parameters == config.parameters
    ensures !r.1.loaded
    ensures r.1.sizeMb == Some(if fileBytes.Some? then fileBytes.value / 1048576 else 0)
    ensures r.0.models.values == reg.models.values[name := r.1]
    ensures r.0.models.order == if name in reg.models.values then reg.models.order else reg.models.order + [name]
    ensures GetModel(r.0, name) == Ok(r.1)
  {
    var size := match fileBytes case Some(b) => SizeMb(b) case None => 0;
    var info := ModelInfo(config.name, config.family, Some(size), config.quantization,
                          config.contextSize, config.template, config.parameters, false);
    (ModelRegistry(Assign(reg.models, name, info)), info)
  }

  /** `update_model_loaded_status`: sets the flag of a known model, ignores unknown names. */
  function UpdateModelLoadedStatus(reg: ModelRegistry, name: string, loaded: bool): (r: ModelRegistry)
    requires Valid(reg)
    ensures Valid(r)
    ensures r.models.order == reg.models.order
    ensures r.models.values.Keys == reg.models.values.Keys
    ensures name in reg.models.values ==> r.models.values[name] == reg.models.values[name].(loaded := loaded)
    ensures forall other :: other in reg.models.values && other != name ==> r.models.values[other] == reg.models.values[other]
    ensures name !in reg.models.values ==> r == reg
  {
    if name in reg.models.values then
      ModelRegistry(Assign(reg.models, name, reg.models.values[name].(loaded := loaded)))
    else reg
  }

  /** Marks each listed model unloaded, in order. */
  function MarkUnloaded(reg: ModelRegistry, names: seq<string>): (r: ModelRegistry)
    requires Valid(reg)
    ensures Valid(r)
    ensures r.models.order == reg.models.order
    ensures r.models.values.Keys == reg.models.values.Keys
    ensures forall n :: n in names && n in r.models.values ==> !r.models.values[n].loaded
    ensures forall n :: n !in names && n in reg.models.values ==> r.models.values[n] == reg.models.values[n]
    ensures forall n :: n in names && n in reg.models.values ==> r.models.values[n] == reg.models.values[n].(loaded := false)
    decreases |names|
  {
    if |names| == 0 then reg
    else MarkUnloaded(UpdateModelLoadedStatus(reg, names[0], false), names[1..])
  }

  /** What a model directory holds of `config.json`. */
  datatype ConfigFile = Missing | Parsed(config: ModelConfig) | Unparseable

  /** The record of a directory that holds no `config.json`. */
  function DefaultConfig(dirName: string): ModelConfig
  {
    ModelConfig(dirName, "unknown", "unknown", 4096, "chatml", map[])
  }

  /**
   `_load_model_info`: no `*.gguf` file, or a `config.json` that does not
   parse, gives no record; a missing `config.json` gives the default config
   named after the directory. The size is that of the first `*.gguf` file.
   */
  function LoadModelInfo(dirName: string, ggufBytes: seq<nat>, configFile: ConfigFile): (r: Option<ModelInfo>)
    ensures r.Some? <==> |ggufBytes| > 0 && !configFile.Unparseable?
    ensures r.Some? ==> !r.value.loaded && r.value.sizeMb == Some(ggufBytes[0] / 1048576)
    ensures r.Some? && configFile.Missing? ==>
      && r.value.name == dirName && r.value.family == "unknown" && r.value.quantization == "unknown"
      && r.value.contextSize == 4096 && r.value.template == "chatml" && r.value.parameters == map[]
    ensures r.Some? && configFile.Parsed? ==> r.value.name == configFile.config.name
  {
    if |ggufBytes| == 0 then None
    else
      var config :=
        match configFile
        case Missing => Some(DefaultConfig(dirName))
        case Parsed(c) => Some(c)
        case Unparseable => None;
      if config.None? then None
      else
        var c := config.value;
        Some(ModelInfo(c.name, c.family, Some(SizeMb(ggufBytes[0])), c.quantization,
                       c.contextSize, c.template, c.parameters, false))
  }
}
