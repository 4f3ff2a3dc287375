/**
 Generation of a downloaded model's configuration
 (app/models/config_generator.py). The quantization is read off the file
 name by three case-insensitive patterns tried in order,
 `Q\d+_[KM0](?:_[SMLXYZ])?`, `F16` and `F32`; each is written here as an
 explicit scanner that finds the leftmost match, and the first pattern's
 scanner is proved to agree with the pattern's language.
 */
module ConfigGenerator {
  import opened Base
  import opened Text
  import opened Schemas
  import opened Catalog

  predicate IsDigit(c: char)
  {
    '0' <= c <= '9'
  }

  /** The end of the run of digits that starts at `j`. */
  function DigitsEnd(s: string, j: nat): (r: nat)
    requires j <= |s|
    ensures j <= r <= |s|
    ensures forall m :: j <= m < r ==> IsDigit(s[m])
    ensures r == |s| || !IsDigit(s[r])
    decreases |s| - j
  {
    if j < |s| && IsDigit(s[j]) then DigitsEnd(s, j + 1) else j
  }

  /** Characters the bracket classes accept, either case. */
  predicate IsQ(c: char) { c == 'Q' || c == 'q' }
  predicate IsKM0(c: char) { c in "KkMm0" }
  predicate IsSMLXYZ(c: char) { c in "SsMmLlXxYyZz" }

  /**
   The end of the match of `Q\d+_[KM0](?:_[SMLXYZ])?` that starts at `i`,
   if there is one; the optional group is taken whenever it can be.
   */
  function QMatchAt(s: string, i: nat): (r: Option<nat>)
    requires i <= |s|
    ensures r.Some? ==> i < r.value <= |s|
  {
    if i < |s| && IsQ(s[i]) then
      var k := DigitsEnd(s, i + 1);
      if k > i + 1 && k + 2 <= |s| && s[k] == '_' && IsKM0(s[k + 1]) then
        if k + 4 <= |s| && s[k + 2] == '_' && IsSMLXYZ(s[k + 3]) then Some(k + 4) else Some(k + 2)
      else None
    else None
  }

  /**
   The words of the pattern's language: `Q`, at least one digit, `_`, one of
   `KM0`, and optionally `_` and one of `SMLXYZ`, letters in either case.
   */
  ghost predicate QWord(w: string)
  {
    exists k :: QWordSplit(w, k)
  }

  /** `w` is a word of the language whose digits end at `k`. */
  ghost predicate QWordSplit(w: string, k: int)
  {
    && 1 < k && (|w| == k + 2 || |w| == k + 4)
    && IsQ(w[0]) && (forall m :: 1 <= m < k ==> IsDigit(w[m]))
    && w[k] == '_' && IsKM0(w[k + 1])
    && (|w| == k + 4 ==> w[k + 2] == '_' && IsSMLXYZ(w[k + 3]))
  }

  /** What the scanner matches is a word of the language. */
  lemma QMatchSound(s: string, i: nat)
    requires i <= |s| && QMatchAt(s, i).Some?
    ensures QWord(s[i..QMatchAt(s, i).value])
  {
    var k := DigitsEnd(s, i + 1);
    var w := s[i..QMatchAt(s, i).value];
    forall m | 1 <= m < k - i
      ensures IsDigit(w[m])
    {
      assert w[m] == s[i + m];
    }
    assert w[0] == s[i] && w[k - i] == s[k] && w[k - i + 1] == s[k + 1];
    if |w| == k - i + 4 {
      assert w[k - i + 2] == s[k + 2] && w[k - i + 3] == s[k + 3];
    }
    assert QWordSplit(w, k - i);
  }

  /** Every word of the language at `i` is found by the scanner, which takes the longest one. */
  lemma QMatchComplete(s: string, i: nat, e: nat)
    requires i <= e <= |s| && QWord(s[i..e])
    ensures QMatchAt(s, i).Some? && e <= QMatchAt(s, i).value
  {
    var w := s[i..e];
    var k :| QWordSplit(w, k);
    forall m | i + 1 <= m < i + k
      ensures IsDigit(s[m])
    {
      assert s[m] == w[m - i];
    }
    assert s[i] == w[0] && s[i + k] == w[k] && s[i + k + 1] == w[k + 1];
    DigitsEndAt(s, i + 1, i + k);
    if |w| == k + 4 {
      assert s[i + k + 2] == w[k + 2] && s[i + k + 3] == w[k + 3];
    }
  }

  /** A run of digits that a non-digit ends, ends there. */
  lemma {:induction false} DigitsEndAt(s: string, j: nat, end: nat)
    requires j <= end < |s| && !IsDigit(s[end])
    requires forall m :: j <= m < end ==> IsDigit(s[m])
    ensures DigitsEnd(s, j) == end
    decreases end - j
  {
    if j < end {
      DigitsEndAt(s, j + 1, end);
    }
  }

  /** The leftmost position at or after `from` where the first pattern matches. */
  function FindQ(s: string, from: nat): (r: Option<nat>)
    requires from <= |s|
    ensures r.Some? ==> from <= r.value <= |s| && QMatchAt(s, r.value).Some?
    ensures forall i :: from <= i <= |s| && (r.None? || i < r.value) ==> QMatchAt(s, i).None?
    decreases |s| - from
  {
    if QMatchAt(s, from).Some? then Some(from)
    else if from == |s| then None
    else FindQ(s, from + 1)
  }

  /** `lit` occurs at `i`, ignoring case. */
  predicate LiteralAt(s: string, i: nat, lit: string)
  {
    i + |lit| <= |s| && Upper(s[i..i + |lit|]) == lit
  }

  /** The leftmost position at or after `from` where `lit` occurs, ignoring case. */
  function FindLiteral(s: string, lit: string, from: nat): (r: Option<nat>)
    requires from <= |s|
    ensures r.Some? ==> from <= r.value <= |s| && LiteralAt(s, r.value, lit)
    ensures forall i :: from <= i <= |s| && (r.None? || i < r.value) ==> !LiteralAt(s, i, lit)
    decreases |s| - from
  {
    if LiteralAt(s, from, lit) then Some(from)
    else if from == |s| then None
    else FindLiteral(s, lit, from + 1)
  }

  /**
   `detect_quantization`: the upper-cased leftmost match of the first
   pattern that matches anywhere, `Q…` before `F16` before `F32`, or
   "unknown" when none does.
   */
  function DetectQuantization(filename: string): (r: string)
    ensures ((forall i :: 0 <= i <= |filename| ==> QMatchAt(filename, i).None?) &&
             (forall i :: 0 <= i <= |filename| ==> !LiteralAt(filename, i, "F16")) &&
             (forall i :: 0 <= i <= |filename| ==> !LiteralAt(filename, i, "F32")))
      <==> r == "unknown"
    ensures forall i ::
      (0 <= i <= |filename| && QMatchAt(filename, i).Some? && (forall j :: 0 <= j < i ==> QMatchAt(filename, j).None?))
      ==> r == Upper(filename[i..QMatchAt(filename, i).value])
    ensures ((forall i :: 0 <= i <= |filename| ==> QMatchAt(filename, i).None?) &&
             (exists i :: 0 <= i <= |filename| && LiteralAt(filename, i, "F16")))
      ==> r == "F16"
    ensures ((forall i :: 0 <= i <= |filename| ==> QMatchAt(filename, i).None?) &&
             (forall i :: 0 <= i <= |filename| ==> !LiteralAt(filename, i, "F16")) &&
             (exists i :: 0 <= i <= |filename| && LiteralAt(filename, i, "F32")))
      ==> r == "F32"
  {
    match FindQ(filename, 0)
    case Some(i) =>
      var w := Upper(filename[i..QMatchAt(filename, i).value]);
      assert IsQ(filename[i]);
      assert w[0] == 'Q';
      w
    case None =>
      match FindLiteral(filename, "F16", 0)
      case Some(i) => "F16"
      case None =>
        match FindLiteral(filename, "F32", 0)
        case Some(i) => "F32"
        case None => "unknown"
  }

  /** A name holding no `q` or `Q` has no match of the first pattern. */
  lemma NoQNoMatch(s: string)
    requires 'q' !in s && 'Q' !in s
    ensures forall i :: 0 <= i <= |s| ==> QMatchAt(s, i).None?
  {
  }

  /** A name holding no `f` or `F` has no match of `F16` or `F32`. */
  lemma NoFNoLiteral(s: string)
    requires 'f' !in s && 'F' !in s
    ensures forall i :: 0 <= i <= |s| ==> !LiteralAt(s, i, "F16") && !LiteralAt(s, i, "F32")
  {
    forall i | 0 <= i <= |s| && i + 3 <= |s|
      ensures !LiteralAt(s, i, "F16") && !LiteralAt(s, i, "F32")
    {
      assert Upper(s[i..i + 3])[0] == UpperChar(s[i]);
    }
  }

  /** The quantization of `model.Q4_K_M.gguf` is `Q4_K_M`. */
  lemma DetectsQ4KM()
    ensures DetectQuantization("model.Q4_K_M.gguf") == "Q4_K_M"
  {
    var s := "model.Q4_K_M.gguf";
    NoMatchBefore6(s);
    MatchAt6(s);
    UpperQ4KM(s[6..12]);
  }

  /** No match of the first pattern starts within `model.`. */
  lemma NoMatchBefore6(s: string)
    requires s == "model.Q4_K_M.gguf"
    ensures forall j :: 0 <= j < 6 ==> QMatchAt(s, j).None?
  {
    NoQNoMatch(s[..6]);
    forall j | 0 <= j < 6
      ensures QMatchAt(s, j).None?
    {
      assert s[j] == s[..6][j];
    }
  }

  /** The match at the `Q` runs to the end of `Q4_K_M`. */
  lemma MatchAt6(s: string)
    requires s == "model.Q4_K_M.gguf"
    ensures QMatchAt(s, 6) == Some(12) && s[6..12] == "Q4_K_M"
  {
    assert DigitsEnd(s, 7) == 8;
  }

  /** `Q4_K_M` is already upper-case. */
  lemma UpperQ4KM(w: string)
    requires w == "Q4_K_M"
    ensures Upper(w) == w
  {
    assert forall i :: 0 <= i < |w| ==> UpperChar(w[i]) == w[i];
  }

  /** The generated `parameters` before the caller's overrides. */
  const DefaultParameters: map<string, ParamValue> :=
    map["temperature" := Number(0.7), "top_p" := Number(0.9), "repeat_penalty" := Number(1.1)]

  /** The configuration `generate_config` writes; `description` is an optional key. */
  datatype GeneratedConfig = GeneratedConfig(
    name: string,
    family: string,
    quantization: string,
    contextSize: int,
    template: string,
    parameters: map<string, ParamValue>,
    description: Option<string>)

  /**
   `generate_config`: the quantization detected from the file name, the
   default parameters updated key by key with the given ones, and the
   description only when it is a non-empty string.
   */
  function GenerateConfig(modelName: string, family: string, template: string, contextSize: int,
                          modelFileName: string, description: Option<string>,
                          parameters: Option<map<string, ParamValue>>): (r: GeneratedConfig)
    ensures r.name == modelName && r.family == family && r.template == template && r.contextSize == contextSize
    ensures r.quantization == DetectQuantization(modelFileName)
    ensures parameters.None? ==> r.parameters == DefaultParameters
    ensures parameters.Some? ==> r.parameters.Keys == DefaultParameters.Keys + parameters.value.Keys
    ensures parameters.Some? ==> forall k :: k in parameters.value ==> r.parameters[k] == parameters.value[k]
    ensures forall k :: k in DefaultParameters && (parameters.None? || k !in parameters.value) ==>
      k in r.parameters && r.parameters[k] == DefaultParameters[k]
    ensures r.description.Some? <==> description.Some? && description.value != ""
    ensures r.description.Some? ==> r.description == description
  {
    var params := match parameters
      case Some(p) => if |p| > 0 then DefaultParameters + p else DefaultParameters
      case None => DefaultParameters;
    var desc := match description
      case Some(d) => if d != "" then description else None
      case None => None;
    GeneratedConfig(modelName, family, DetectQuantization(modelFileName), contextSize, template, params, desc)
  }

  /**
   `create_model_config`: the configuration of a downloaded catalog model,
   whose file is always saved as `model.gguf`.
   */
  function CreateModelConfig(modelName: string, entry: CatalogEntry): (r: GeneratedConfig)
    ensures r.name == modelName && r.family == entry.family && r.template == entry.template
    ensures r.contextSize == entry.contextSize && r.parameters == DefaultParameters
    ensures r.description.Some? <==> entry.description != ""
    ensures r.description == if entry.description != "" then Some(entry.description) else None
  {
    GenerateConfig(modelName, entry.family, entry.template, entry.contextSize, "model.gguf", Some(entry.description), None)
  }

  /**
   The file name `model.gguf` carries no quantization, so every configuration
   created for a downloaded model records "unknown".
   */
  lemma CreatedQuantizationUnknown(modelName: string, entry: CatalogEntry)
    ensures CreateModelConfig(modelName, entry).quantization == "unknown"
  {
    NoQNoMatch("model.gguf");
    var s := "model.gguf";
    forall i | 0 <= i <= |s|
      ensures !LiteralAt(s, i, "F16") && !LiteralAt(s, i, "F32")
    {
      if i + 3 <= |s| {
        assert s[i] == s[..8][i] && 'f' !in s[..8] && 'F' !in s[..8];
        assert Upper(s[i..i + 3])[0] == UpperChar(s[i]);
      }
    }
  }
}
