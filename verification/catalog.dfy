/**
 The catalog of downloadable models (app/models/catalog.py): a fixed,
 ordered table from model name to download metadata, with lookup, listing
 and a case-insensitive search over name, description and family. The
 operations are written over any table of distinct names and applied to the
 fixed one.
 */
module Catalog {
  import opened Base
  import opened Text

  datatype CatalogEntry = CatalogEntry(
    repoId: string,
    filename: string,
    family: string,
    template: string,
    contextSize: nat,
    description: string,
    sizeMb: nat)

  /** A table in insertion order, as a list of (name, metadata) pairs. */
  type Table = seq<(string, CatalogEntry)>

  /** `{"name": name, **metadata}`. */
  datatype CatalogRecord = CatalogRecord(name: string, entry: CatalogEntry)

  predicate DistinctNames(t: Table)
  {
    forall i, j :: 0 <= i < j < |t| ==> t[i].0 != t[j].0
  }

  /** `MODELS_CATALOG`. */
  const ModelsCatalog: Table := [
    ("tinyllama-1.1b", CatalogEntry(
      "TheBloke/TinyLlama-1.1B-Chat-v1.0-GGUF", "tinyllama-1.1b-chat-v1.0.Q4_K_M.gguf",
      "llama", "llama", 2048,
      "TinyLlama 1.1B Q4_K_M - Small, fast model for testing (~637MB)", 637)),
    ("phi-2", CatalogEntry(
      "TheBloke/phi-2-GGUF", "phi-2.Q4_K_M.gguf",
      "phi", "phi", 2048,
      "Microsoft Phi-2 2.7B Q4_K_M - Efficient small model (~1.6GB)", 1600)),
    ("llama3-8b", CatalogEntry(
      "QuantFactory/Meta-Llama-3-8B-Instruct-GGUF", "Meta-Llama-3-8B-Instruct.Q4_K_M.gguf",
      "llama", "llama3", 8192,
      "Llama 3 8B Instruct Q4_K_M - High quality general purpose (~4.9GB)", 4920)),
    ("mistral-7b", CatalogEntry(
      "TheBloke/Mistral-7B-Instruct-v0.2-GGUF", "mistral-7b-instruct-v0.2.Q4_K_M.gguf",
      "mistral", "mistral", 8192,
      "Mistral 7B Instruct v0.2 Q4_K_M - Powerful 7B model (~4.4GB)", 4370)),
    ("qwen-1.8b", CatalogEntry(
      "Qwen/Qwen1.5-1.8B-Chat-GGUF", "qwen1_5-1_8b-chat-q4_k_m.gguf",
      "qwen", "chatml", 32768,
      "Qwen 1.5 1.8B Chat Q4_K_M - Long context small model (~1.1GB)", 1100))
  ]

  /** `MODELS_CATALOG.get(model_name)`. */
  function Lookup(t: Table, name: string): (r: Option<CatalogEntry>)
    ensures r.Some? <==> exists i :: 0 <= i < |t| && t[i].0 == name
    ensures r.Some? ==> exists i :: 0 <= i < |t| && t[i] == (name, r.value)
    ensures DistinctNames(t) ==> forall i :: 0 <= i < |t| && t[i].0 == name ==> r == Some(t[i].1)
    decreases |t|
  {
    if |t| == 0 then None
    else if t[0].0 == name then Some(t[0].1)
    else
      var r := Lookup(t[1..], name);
      assert forall i :: 1 <= i < |t| ==> t[i] == t[1..][i - 1];
      r
  }

  /** `get_model_from_catalog`. */
  function GetModelFromCatalog(name: string): (r: Option<CatalogEntry>)
    ensures r.Some? <==> IsModelInCatalog(name)
    ensures r.Some? ==> exists i :: 0 <= i < |ModelsCatalog| && ModelsCatalog[i] == (name, r.value)
  {
    Lookup(ModelsCatalog, name)
  }

  /** `is_model_in_catalog`: `model_name in MODELS_CATALOG`. */
  function IsModelInCatalog(name: string): (r: bool)
    ensures r <==> exists i :: 0 <= i < |ModelsCatalog| && ModelsCatalog[i].0 == name
  {
    Lookup(ModelsCatalog, name).Some?
  }

  /** `list_catalog_models` over a table: one record per entry, in table order. */
  function ListRecords(t: Table): (r: seq<CatalogRecord>)
    ensures |r| == |t|
    ensures forall i :: 0 <= i < |t| ==> r[i] == CatalogRecord(t[i].0, t[i].1)
  {
    seq(|t|, i requires 0 <= i < |t| => CatalogRecord(t[i].0, t[i].1))
  }

  /** `list_catalog_models`: every catalog entry once, as a record, in catalog order. */
  function ListCatalogModels(): (r: seq<CatalogRecord>)
    ensures |r| == |ModelsCatalog|
    ensures forall i :: 0 <= i < |r| ==> r[i] == CatalogRecord(ModelsCatalog[i].0, ModelsCatalog[i].1)
    ensures forall i, j :: 0 <= i < j < |r| ==> r[i].name != r[j].name
    ensures forall i :: 0 <= i < |r| ==> GetModelFromCatalog(r[i].name) == Some(r[i].entry)
  {
    CatalogNamesDistinct();
    ListRecords(ModelsCatalog)
  }

  /** The search condition: the lower-cased query occurs in the lower-cased name, description or family. */
  predicate Matches(name: string, e: CatalogEntry, query: string)
  {
    var q := Lower(query);
    Contains(Lower(name), q) || Contains(Lower(e.description), q) || Contains(Lower(e.family), q)
  }

  /** The positions of the matching entries, from position `from` on. */
  function MatchingFrom(t: Table, query: string, from: nat): (r: seq<nat>)
    requires from <= |t|
    ensures forall j :: 0 <= j < |r| ==> from <= r[j] < |t| && Matches(t[r[j]].0, t[r[j]].1, query)
    ensures forall j, k :: 0 <= j < k < |r| ==> r[j] < r[k]
    ensures forall i :: from <= i < |t| && Matches(t[i].0, t[i].1, query) ==> i in r
    decreases |t| - from
  {
    if from == |t| then []
    else if Matches(t[from].0, t[from].1, query) then [from] + MatchingFrom(t, query, from + 1)
    else MatchingFrom(t, query, from + 1)
  }

  /**
   `search_catalog` over a table: the records of exactly the matching
   entries, in table order.
   */
  function Search(t: Table, query: string): (r: seq<CatalogRecord>)
    ensures var idx := MatchingFrom(t, query, 0);
      |r| == |idx| && forall j :: 0 <= j < |r| ==> r[j] == CatalogRecord(t[idx[j]].0, t[idx[j]].1)
    ensures forall j :: 0 <= j < |r| ==> Matches(r[j].name, r[j].entry, query)
    ensures forall i :: 0 <= i < |t| && Matches(t[i].0, t[i].1, query) ==> CatalogRecord(t[i].0, t[i].1) in r
  {
    var idx := MatchingFrom(t, query, 0);
    var r := seq(|idx|, j requires 0 <= j < |idx| => CatalogRecord(t[idx[j]].0, t[idx[j]].1));
    assert forall i :: 0 <= i < |t| && Matches(t[i].0, t[i].1, query) ==> CatalogRecord(t[i].0, t[i].1) in r by {
      forall i | 0 <= i < |t| && Matches(t[i].0, t[i].1, query)
        ensures CatalogRecord(t[i].0, t[i].1) in r
      {
        var j :| 0 <= j < |idx| && idx[j] == i;
        assert r[j] == CatalogRecord(t[i].0, t[i].1);
      }
    }
    r
  }

  /**
   `search_catalog`: the records of the matching catalog entries, in catalog
   order and each once.
   */
  function SearchCatalog(query: string): (r: seq<CatalogRecord>)
    ensures var idx := MatchingFrom(ModelsCatalog, query, 0);
      |r| == |idx| && forall j :: 0 <= j < |r| ==> r[j] == CatalogRecord(ModelsCatalog[idx[j]].0, ModelsCatalog[idx[j]].1)
    ensures forall j, k :: 0 <= j < k < |r| ==> r[j].name != r[k].name
    ensures forall j :: 0 <= j < |r| ==> Matches(r[j].name, r[j].entry, query)
    ensures forall i :: 0 <= i < |ModelsCatalog| && Matches(ModelsCatalog[i].0, ModelsCatalog[i].1, query) ==>
      CatalogRecord(ModelsCatalog[i].0, ModelsCatalog[i].1) in r
  {
    CatalogNamesDistinct();
    Search(ModelsCatalog, query)
  }

  /** Every string contains the empty string. */
  lemma EmptyContained(s: string)
    ensures Contains(s, "")
  {
  }

  /** The empty query matches every entry, so searching for it lists the whole table. */
  lemma {:induction false} EmptyQueryListsAll(t: Table)
    ensures Search(t, "") == ListRecords(t)
  {
    AllMatchFrom(t, 0);
  }

  /** From `from` on, the empty query matches every position, in order. */
  lemma {:induction false} AllMatchFrom(t: Table, from: nat)
    requires from <= |t|
    ensures |MatchingFrom(t, "", from)| == |t| - from
    ensures forall j :: 0 <= j < |t| - from ==> MatchingFrom(t, "", from)[j] == from + j
    decreases |t| - from
  {
    if from < |t| {
      EmptyQueryMatches(t[from].0, t[from].1);
      AllMatchFrom(t, from + 1);
      var rest := MatchingFrom(t, "", from + 1);
      var all := [from] + rest;
      assert MatchingFrom(t, "", from) == all;
      forall j | 0 <= j < |t| - from
        ensures all[j] == from + j
      {
        if j > 0 {
          assert all[j] == rest[j - 1];
        }
      }
    }
  }

  /** The empty query matches every entry. */
  lemma EmptyQueryMatches(name: string, e: CatalogEntry)
    ensures Matches(name, e, "")
  {
    assert Lower("") == "";
    EmptyContained(Lower(name));
  }

  /** The catalog's names are distinct, so every name has a single entry. */
  lemma CatalogNamesDistinct()
    ensures DistinctNames(ModelsCatalog)
  {
  }

  /** The catalog holds five models, each with a positive context size and size. */
  lemma CatalogWellFormed()
    ensures |ModelsCatalog| == 5
    ensures forall i :: 0 <= i < |ModelsCatalog| ==> ModelsCatalog[i].1.contextSize > 0 && ModelsCatalog[i].1.sizeMb > 0
  {
  }

  /** Looking up "phi-2" gives its entry; "nonexistent-model" is not in the catalog. */
  lemma LookupExamples()
    ensures GetModelFromCatalog("phi-2") == Some(ModelsCatalog[1].1)
    ensures GetModelFromCatalog("nonexistent-model") == None
  {
    CatalogNamesDistinct();
    assert ModelsCatalog[1].0 == "phi-2";
    assert forall i :: 0 <= i < |ModelsCatalog| ==> ModelsCatalog[i].0 != "nonexistent-model";
  }
}
