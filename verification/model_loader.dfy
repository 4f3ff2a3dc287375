/**
 The model cache with least-recently-used eviction
 (app/services/model_loader.py).

 Loaded models are kept in an ordered map, oldest first. A hit moves the name
 to the most recent end; a miss loads the model, appends it, and evicts from
 the oldest end while the cache holds more than `maxModels` models. Loading
 itself (finding the file and opening it) is an opaque function that may fail.
 The global registry is passed in and handed back explicitly.
 */
module ModelLoader {
  import opened Base
  import opened Schemas
  import opened OrderedMaps
  import opened Registry

  /** An opaque loaded model instance. */
  datatype Handle = Handle(id: nat)

  /** What resolving the model file and loading it yields. */
  datatype LoadAttempt =
    | Loaded(handle: Handle)
    | NoModelFile             // `get_model_path` found no `*.gguf` file
    | LoadFailed(reason: string) // the backend raised while loading

  datatype Loader = Loader(cache: OrderedMap<Handle>, maxModels: nat)

  /** The cache is a well-formed ordered map within its capacity. */
  ghost predicate Valid(l: Loader)
  {
    OrderedMaps.Valid(l.cache) && |l.cache.order| <= l.maxModels
  }

  /**
   The outcome of one loader operation: the new cache and registry, the
   result, and the names whose models were closed, in closing order.
   */
  datatype Step<T> = Step(loader: Loader, registry: ModelRegistry, result: T, closed: seq<string>)

  function NewLoader(maxModels: nat): (l: Loader)
    ensures Valid(l) && |l.cache.order| == 0 && l.maxModels == maxModels
  {
    Loader(OrderedMaps.Empty(), maxModels)
  }

  /**
   `get_or_load_model`. A hit returns the cached instance and marks it most
   recently used. A miss consults the registry (ModelNotFoundError), loads the
   model (ModelLoadError on failure), appends it, marks it loaded, and then
   evicts and closes the oldest models until the capacity holds again.
   */
  function GetOrLoadModel(l: Loader, reg: ModelRegistry, name: string, load: string -> LoadAttempt): (s: Step<Result<Handle>>)
    requires Valid(l) && Registry.Valid(reg)
    ensures Valid(s.loader) && Registry.Valid(s.registry)
    ensures s.loader.maxModels == l.maxModels
    ensures s.registry.models.values.Keys == reg.models.values.Keys
    ensures s.registry.models.order == reg.models.order
    // hit
    ensures name in l.cache.values ==>
      && s.result == Ok(l.cache.values[name])
      && s.loader.cache.order == Without(l.cache.order, name) + [name]
      && s.loader.cache.values == l.cache.values
      && s.registry == reg && s.closed == []
    // unknown model
    ensures name !in l.cache.values && name !in reg.models.values ==>
      s == Step(l, reg, Err(ModelNotFound(name)), [])
    // the load failed
    ensures name !in l.cache.values && name in reg.models.values && !load(name).Loaded? ==>
      && s.loader == l && s.registry == reg && s.closed == []
      && s.result == Err(if load(name).NoModelFile? then ModelNotFound("Model file not found for " + name)
                         else ModelLoadFailed(name, load(name).reason))
    // a successful miss: see Admit
    ensures name !in l.cache.values && name in reg.models.values && load(name).Loaded? ==>
      var a := Admit(l, reg, name, load(name).handle);
      s == Step(a.loader, a.registry, Ok(load(name).handle), a.closed)
  {
    if name in l.cache.values then
      var i :| 0 <= i < |l.cache.order| && l.cache.order[i] == name;
      WithoutAt(l.cache.order, i);
      Step(Loader(MoveToEnd(l.cache, name), l.maxModels), reg, Ok(l.cache.values[name]), [])
    else if GetModel(reg, name).Err? then
      Step(l, reg, Err(ModelNotFound(name)), [])
    else
      match load(name)
      case NoModelFile =>
        Step(l, reg, Err(ModelNotFound("Model file not found for " + name)), [])
      case LoadFailed(reason) =>
        Step(l, reg, Err(ModelLoadFailed(name, reason)), [])
      case Loaded(handle) =>
        var s := Admit(l, reg, name, handle);
        Step(s.loader, s.registry, Ok(handle), s.closed)
  }

  /**
   The end of a successful miss: the new instance is stored as the most
   recent entry, its record marked loaded, and the oldest entries evicted,
   closed and marked unloaded while the cache exceeds its capacity.
   */
  function Admit(l: Loader, reg: ModelRegistry, name: string, handle: Handle): (s: Step<()>)
    requires Valid(l) && Registry.Valid(reg) && name !in l.cache.values
    ensures Valid(s.loader) && Registry.Valid(s.registry)
    ensures s.registry.models.order == reg.models.order
    ensures s.loader.maxModels == l.maxModels
    ensures s.registry.models.values.Keys == reg.models.values.Keys
    ensures |s.closed| == (if |l.cache.order| + 1 <= l.maxModels then 0 else |l.cache.order| + 1 - l.maxModels)
    ensures s.closed == (l.cache.order + [name])[..|s.closed|]
    ensures s.loader.cache.order == (l.cache.order + [name])[|s.closed|..]
    ensures l.maxModels >= 1 ==> name in s.loader.cache.values && s.loader.cache.values[name] == handle
    ensures forall n :: n in s.loader.cache.values && n != name ==> s.loader.cache.values[n] == l.cache.values[n]
    ensures forall n :: n in s.closed && n in s.registry.models.values ==> !s.registry.models.values[n].loaded
    ensures name !in s.closed && name in reg.models.values ==> s.registry.models.values[name].loaded
    ensures forall n :: n in reg.models.values ==>
      s.registry.models.values[n] == reg.models.values[n].(loaded :=
        if n in s.closed then false else if n == name then true else reg.models.values[n].loaded)
  {
    var cache := AdmitToCache(l.cache, name, handle, l.maxModels);
    var marked := UpdateModelLoadedStatus(reg, name, true);
    var unmarked := MarkUnloaded(marked, cache.1);
    AdmitFrame(reg.models.values, marked.models.values, unmarked.models.values, name, cache.1);
    Step(Loader(cache.0, l.maxModels), unmarked, (), cache.1)
  }

  /**
   Marking `name` loaded and then the closed names unloaded changes no field
   but `loaded`, and only for those names.
   */
  lemma AdmitFrame(r0: map<string, ModelInfo>, r1: map<string, ModelInfo>, r2: map<string, ModelInfo>,
                   name: string, closed: seq<string>)
    requires r1.Keys == r0.Keys && r2.Keys == r1.Keys
    requires name in r0 ==> r1[name] == r0[name].(loaded := true)
    requires forall n :: n in r0 && n != name ==> r1[n] == r0[n]
    requires forall n :: n in closed && n in r1 ==> r2[n] == r1[n].(loaded := false)
    requires forall n :: n !in closed && n in r1 ==> r2[n] == r1[n]
    ensures forall n :: n in r0 ==>
      r2[n] == r0[n].(loaded := if n in closed then false else if n == name then true else r0[n].loaded)
  {
  }

  /** Storing the new instance and evicting the oldest entries beyond `cap`. */
  function AdmitToCache(cache: OrderedMap<Handle>, name: string, handle: Handle, cap: nat): (r: (OrderedMap<Handle>, seq<string>))
    requires OrderedMaps.Valid(cache) && |cache.order| <= cap && name !in cache.values
    ensures OrderedMaps.Valid(r.0) && |r.0.order| <= cap
    ensures |r.1| == (if |cache.order| + 1 <= cap then 0 else |cache.order| + 1 - cap)
    ensures r.1 == (cache.order + [name])[..|r.1|]
    ensures r.0.order == (cache.order + [name])[|r.1|..]
    ensures cap >= 1 ==> name in r.0.values && r.0.values[name] == handle
    ensures forall n :: n in r.0.values && n != name ==> r.0.values[n] == cache.values[n]
  {
    var added := Assign(cache, name, handle);
    assert added.order == cache.order + [name];
    var evicted := EvictOldest(added, cap);
    AppendThenEvict(cache, name, handle, cap, added, evicted.0, evicted.1);
    evicted
  }

  /** What appending a new name and then evicting down to `cap` leaves. */
  lemma AppendThenEvict(cache: OrderedMap<Handle>, name: string, handle: Handle, cap: nat,
                        added: OrderedMap<Handle>, kept: OrderedMap<Handle>, dropped: seq<string>)
    requires OrderedMaps.Valid(cache) && |cache.order| <= cap && name !in cache.values
    requires OrderedMaps.Valid(added) && added.values == cache.values[name := handle]
    requires added.order == cache.order + [name]
    requires OrderedMaps.Valid(kept)
    requires |dropped| == if |added.order| <= cap then 0 else |added.order| - cap
    requires dropped == added.order[..|dropped|] && kept.order == added.order[|dropped|..]
    requires forall k :: k in kept.values ==> k in added.values && kept.values[k] == added.values[k]
    ensures |kept.order| <= cap
    ensures |dropped| == (if |cache.order| + 1 <= cap then 0 else |cache.order| + 1 - cap)
    ensures cap >= 1 ==> name in kept.values && kept.values[name] == handle
    ensures forall n :: n in kept.values && n != name ==> kept.values[n] == cache.values[n]
  {
    EvictKeepsNewest(added, cap, kept, dropped);
    forall n | n in kept.values && n != name
      ensures kept.values[n] == cache.values[n]
    {
      assert kept.values[n] == added.values[n];
    }
  }

  /** `_unload_model` / `unload_model`: close and forget one model; absent names are ignored. */
  function UnloadModel(l: Loader, reg: ModelRegistry, name: string): (s: Step<()>)
    requires Valid(l) && Registry.Valid(reg)
    ensures Valid(s.loader) && Registry.Valid(s.registry)
    ensures name !in l.cache.values ==> s == Step(l, reg, (), [])
    ensures name in l.cache.values ==>
      && s.loader.cache.order == Without(l.cache.order, name)
      && s.loader.cache.values == l.cache.values - {name}
      && s.closed == [name]
      && s.registry == UpdateModelLoadedStatus(reg, name, false)
  {
    if name in l.cache.values then
      Step(Loader(Delete(l.cache, name), l.maxModels), UpdateModelLoadedStatus(reg, name, false), (), [name])
    else
      Step(l, reg, (), [])
  }

  /** `unload_all`: close every model, oldest first. */
  function UnloadAll(l: Loader, reg: ModelRegistry): (s: Step<()>)
    requires Valid(l) && Registry.Valid(reg)
    ensures Valid(s.loader) && Registry.Valid(s.registry)
    ensures s.registry.models.order == reg.models.order
    ensures |s.loader.cache.order| == 0 && s.loader.cache.values == map[]
    ensures s.closed == l.cache.order
    ensures forall n :: n in l.cache.order && n in s.registry.models.values ==> !s.registry.models.values[n].loaded
    ensures s.registry.models.values.Keys == reg.models.values.Keys
    ensures forall n :: n in l.cache.order && n in reg.models.values ==>
      s.registry.models.values[n] == reg.models.values[n].(loaded := false)
    ensures forall n :: n !in l.cache.order && n in reg.models.values ==> s.registry.models.values[n] == reg.models.values[n]
  {
    UnloadEach(l, reg, l.cache.order)
  }

  /** The loop of `unload_all` over a snapshot of the names. */
  function UnloadEach(l: Loader, reg: ModelRegistry, names: seq<string>): (s: Step<()>)
    requires Valid(l) && Registry.Valid(reg)
    requires Distinct(names) && forall n :: n in l.cache.values <==> n in names
    ensures Valid(s.loader) && Registry.Valid(s.registry)
    ensures s.registry.models.order == reg.models.order
    ensures |s.loader.cache.order| == 0 && s.loader.cache.values == map[]
    ensures s.closed == names
    ensures s.registry.models.values.Keys == reg.models.values.Keys
    ensures forall n :: n in names && n in s.registry.models.values ==> !s.registry.models.values[n].loaded
    ensures forall n :: n !in names && n in reg.models.values ==> s.registry.models.values[n] == reg.models.values[n]
    ensures forall n :: n in names && n in reg.models.values ==>
      s.registry.models.values[n] == reg.models.values[n].(loaded := false)
    decreases |names|
  {
    assert |l.cache.order| > 0 ==> l.cache.order[0] in names;
    if |names| == 0 then
      Step(l, reg, (), [])
    else
      var first := UnloadModel(l, reg, names[0]);
      assert names[0] !in names[1..];
      var rest := UnloadEach(first.loader, first.registry, names[1..]);
      assert names == [names[0]] + names[1..];
      UnloadFrame(reg.models.values, first.registry.models.values, rest.registry.models.values, names[0], names[1..]);
      Step(rest.loader, rest.registry, (), [names[0]] + rest.closed)
  }

  /**
   Unloading one name and then the rest unloads every listed record and
   leaves every other record as it was.
   */
  lemma UnloadFrame(r0: map<string, ModelInfo>, r1: map<string, ModelInfo>, r2: map<string, ModelInfo>,
                    first: string, rest: seq<string>)
    requires r1.Keys == r0.Keys && r2.Keys == r1.Keys && first !in rest
    requires first in r0 ==> r1[first] == r0[first].(loaded := false)
    requires forall n :: n in r0 && n != first ==> r1[n] == r0[n]
    requires forall n :: n in rest && n in r1 ==> r2[n] == r1[n].(loaded := false)
    requires forall n :: n !in rest && n in r1 ==> r2[n] == r1[n]
    ensures forall n :: n in [first] + rest && n in r0 ==> r2[n] == r0[n].(loaded := false)
    ensures forall n :: n !in [first] + rest && n in r0 ==> r2[n] == r0[n]
  {
  }

  /** `get_loaded_models`: the cached names, least recently used first. */
  function GetLoadedModels(l: Loader): (r: seq<string>)
    requires Valid(l)
    ensures r == l.cache.order
    ensures Distinct(r) && |r| <= l.maxModels
    ensures forall n :: n in r <==> n in l.cache.values
  {
    l.cache.order
  }

  /** `is_loaded`. */
  function IsLoaded(l: Loader, name: string): (r: bool)
    requires Valid(l)
    ensures r <==> name in GetLoadedModels(l)
  {
    name in l.cache.values
  }

  /** A hit never consults the load function. */
  lemma HitIgnoresLoader(l: Loader, reg: ModelRegistry, name: string, f: string -> LoadAttempt, g: string -> LoadAttempt)
    requires Valid(l) && Registry.Valid(reg) && name in l.cache.values
    ensures GetOrLoadModel(l, reg, name, f) == GetOrLoadModel(l, reg, name, g)
  {
  }

  /** A miss below capacity appends the model and closes nothing. */
  lemma MissWithRoom(l: Loader, reg: ModelRegistry, name: string, load: string -> LoadAttempt)
    requires Valid(l) && Registry.Valid(reg)
    requires name !in l.cache.values && name in reg.models.values && load(name).Loaded?
    requires |l.cache.order| < l.maxModels
    ensures
      var s := GetOrLoadModel(l, reg, name, load);
      && s.result == Ok(load(name).handle) && s.closed == []
      && s.loader.cache.order == l.cache.order + [name]
      && s.registry.models.values[name].loaded
  {
    var a := Admit(l, reg, name, load(name).handle);
    assert (l.cache.order + [name])[0..] == l.cache.order + [name];
  }

  /** A miss at capacity closes exactly the least recently used model. */
  lemma MissAtCapacity(l: Loader, reg: ModelRegistry, name: string, load: string -> LoadAttempt)
    requires Valid(l) && Registry.Valid(reg)
    requires name !in l.cache.values && name in reg.models.values && load(name).Loaded?
    requires |l.cache.order| == l.maxModels >= 1
    ensures
      var s := GetOrLoadModel(l, reg, name, load);
      && s.result == Ok(load(name).handle) && s.closed == [l.cache.order[0]]
      && s.loader.cache.order == l.cache.order[1..] + [name]
      && s.registry.models.values[name].loaded
      && (l.cache.order[0] in reg.models.values ==> !s.registry.models.values[l.cache.order[0]].loaded)
  {
    AdmitAtCapacity(l, reg, name, load(name).handle);
  }

  /** Admitting at capacity closes the oldest model and appends the new one. */
  lemma AdmitAtCapacity(l: Loader, reg: ModelRegistry, name: string, handle: Handle)
    requires Valid(l) && Registry.Valid(reg)
    requires name !in l.cache.values && name in reg.models.values
    requires |l.cache.order| == l.maxModels >= 1
    ensures
      var a := Admit(l, reg, name, handle);
      && a.closed == [l.cache.order[0]]
      && a.loader.cache.order == l.cache.order[1..] + [name]
      && a.registry.models.values[name].loaded
      && (l.cache.order[0] in reg.models.values ==> !a.registry.models.values[l.cache.order[0]].loaded)
  {
    assert (l.cache.order + [name])[..1] == [l.cache.order[0]];
    assert (l.cache.order + [name])[1..] == l.cache.order[1..] + [name];
    assert l.cache.order[0] in l.cache.values;
  }

  /** A hit moves the model to the most recent end. */
  lemma HitMovesToEnd(l: Loader, reg: ModelRegistry, i: nat, load: string -> LoadAttempt)
    requires Valid(l) && Registry.Valid(reg) && i < |l.cache.order|
    ensures
      var s := GetOrLoadModel(l, reg, l.cache.order[i], load);
      s.loader.cache.order == l.cache.order[..i] + l.cache.order[i + 1..] + [l.cache.order[i]]
  {
    WithoutAt(l.cache.order, i);
  }

  /** From an empty cache of capacity two, loading a and then b closes nothing. */
  lemma LoadTwo(reg: ModelRegistry, a: string, b: string, load: string -> LoadAttempt,
                s1: Step<Result<Handle>>, s2: Step<Result<Handle>>)
    requires Registry.Valid(reg) && a in reg.models.values && b in reg.models.values && a != b
    requires load(a).Loaded? && load(b).Loaded?
    requires s1 == GetOrLoadModel(NewLoader(2), reg, a, load)
    requires s2 == GetOrLoadModel(s1.loader, s1.registry, b, load)
    ensures Valid(s2.loader) && Registry.Valid(s2.registry) && s2.loader.maxModels == 2
    ensures s1.closed == [] && s2.closed == []
    ensures s2.loader.cache.order == [a, b]
    ensures s2.registry.models.values.Keys == reg.models.values.Keys
  {
    MissWithRoom(NewLoader(2), reg, a, load);
    MissWithRoom(s1.loader, s1.registry, b, load);
  }

  /**
   With room for two models, loading a, b and then c evicts a, the least
   recently used, keeps b and c, and marks a unloaded and c loaded.
   */
  lemma EvictsLeastRecentlyUsed(reg: ModelRegistry, a: string, b: string, c: string, load: string -> LoadAttempt,
                                s1: Step<Result<Handle>>, s2: Step<Result<Handle>>, s3: Step<Result<Handle>>)
    requires Registry.Valid(reg) && a in reg.models.values && b in reg.models.values && c in reg.models.values
    requires a != b && b != c && a != c
    requires load(a).Loaded? && load(b).Loaded? && load(c).Loaded?
    requires s1 == GetOrLoadModel(NewLoader(2), reg, a, load)
    requires s2 == GetOrLoadModel(s1.loader, s1.registry, b, load)
    requires s3 == GetOrLoadModel(s2.loader, s2.registry, c, load)
    ensures s1.closed == [] && s2.closed == [] && s3.closed == [a]
    ensures GetLoadedModels(s3.loader) == [b, c]
    ensures !s3.registry.models.values[a].loaded && s3.registry.models.values[c].loaded
  {
    LoadTwo(reg, a, b, load, s1, s2);
    var o := s2.loader.cache.order;
    RotatePair(o, a, b, c);
    assert c !in s2.loader.cache.values && c in s2.registry.models.values;
    MissAtCapacity(s2.loader, s2.registry, c, load);
    assert a in s2.registry.models.values;
  }

  /**
   Using a cached model makes the other one the eviction victim: with a and
   b cached at capacity two, a hit on a followed by loading c closes b.
   */
  lemma HitRefreshesRecency(l: Loader, reg: ModelRegistry, a: string, b: string, c: string, load: string -> LoadAttempt,
                            s1: Step<Result<Handle>>, s2: Step<Result<Handle>>)
    requires Valid(l) && Registry.Valid(reg) && l.maxModels == 2 && l.cache.order == [a, b]
    requires c in reg.models.values && c != a && c != b && load(c).Loaded?
    requires s1 == GetOrLoadModel(l, reg, a, load)
    requires s2 == GetOrLoadModel(s1.loader, s1.registry, c, load)
    ensures s1.result == Ok(l.cache.values[a]) && s1.closed == []
    ensures s2.closed == [b] && GetLoadedModels(s2.loader) == [a, c]
  {
    HitOnOlder(l, reg, a, b, load, s1);
    var o := s1.loader.cache.order;
    RotatePair(o, b, a, c);
    assert c !in s1.loader.cache.values;
    MissAtCapacity(s1.loader, s1.registry, c, load);
  }

  /** Dropping the first of two names and appending a third, different one. */
  lemma RotatePair(o: seq<string>, x: string, y: string, z: string)
    requires o == [x, y] && z != x && z != y
    ensures z !in o && o[0] == x && o[1..] + [z] == [y, z]
  {
  }

  /** A hit on the older of two cached models makes the other the older one. */
  lemma HitOnOlder(l: Loader, reg: ModelRegistry, a: string, b: string, load: string -> LoadAttempt, s1: Step<Result<Handle>>)
    requires Valid(l) && Registry.Valid(reg) && l.cache.order == [a, b]
    requires s1 == GetOrLoadModel(l, reg, a, load)
    ensures Valid(s1.loader) && Registry.Valid(s1.registry) && s1.loader.maxModels == l.maxModels
    ensures s1.result == Ok(l.cache.values[a]) && s1.closed == [] && s1.registry == reg
    ensures s1.loader.cache.order == [b, a]
  {
    assert a in l.cache.order;
    HitMovesToEnd(l, reg, 0, load);
    assert [a, b][..0] + [a, b][1..] + [a] == [b, a];
  }
}
