# myllm runtime core in Dafny

This project models the logic at the centre of the myllm local LLM server, without its I/O. It covers these parts:

- **Context trimming.** The token estimate keeps every system message, always keeps the last conversation message, and then keeps the longest run of recent messages that fits the budget (`app/engine/tokenizer.py`).
- **LRU model cache.** A hit moves the model to the most recent end. A miss loads it, appends it, and evicts and closes the oldest models while the cache is over capacity. The registry's `loaded` flags follow along (`app/services/model_loader.py`).
- **TTL + LRU cache.** This is the cache of embeddings and templates (`app/storage/cache.py`).
- **Prompt templates and the prompt guard.** The templates are explicit, one per family. The guard rejects prompts that contain BOS or EOS tokens (`app/core/templates.py`, `app/core/prompt.py`).
- **Stop detection over the last twenty tokens** (`app/engine/sanitizer.py`).
- **Stream framing.** A token stream becomes events: one token event per token, then exactly one final event (`app/engine/streaming.py`).
- **Option merging and the token/error flow of `infer`** (`app/services/inference.py`).
- **The download catalog** (`app/models/catalog.py`).
- **The in-memory model registry** (`app/models/registry.py`).
- **Quantization detection and config generation** (`app/models/config_generator.py`).
- **The bounds that request validation enforces** (`app/models/schemas.py`).

One Dafny module per source file:

- `Tokenizer`
- `ModelLoader`
- `TtlCache`
- `Templates`
- `Prompt`
- `Sanitizer`
- `Streaming`
- `Inference`
- `Catalog`
- `Registry`
- `ConfigGenerator`
- `Schemas`

Shared pieces:

- **`Base`:** `Option`, `Result` and the service's error kinds.
- **`Seqs` and `Text`:** sequence facts, Python's substring test `in`, `"".join`, ASCII `lower`/`upper` and `lstrip`.
- **`OrderedMaps`:** Python's insertion-ordered `dict`/`OrderedDict`, as a key sequence (oldest first) plus a map. It provides `d[k] = v`, `del d[k]`, `move_to_end` and the "delete the oldest while over capacity" loop.

Each stateful operation is a pure function from the old state to the new state and its result. The loader returns the cache, the registry, the result, and the names whose models were closed, in closing order. Clock readings, model loading, the backend's token generator and the regular-expression cleanup are parameters.

The prompt guard (app/core/prompt.py:69-86) rejects `<s>` anywhere in the stripped prompt, and it also rejects `</s>` and `<|begin_of_text|>`. The llama and mistral templates begin every prompt with `<s>`, and llama3 begins with `<|begin_of_text|>`. So every `PromptBuilder.build_prompt` call with messages for those three families raises the leak error, as `Prompt.BosFamiliesAlwaysFail` states.

## Model

| member | source | states |
|---|---|---|
| Tokenizer.CountTokens | app/engine/tokenizer.py:48-53 | The estimate is exactly `len(text) // 4 + 3`. So it is always at least 3, and the `max(1, …)` never binds. |
| Tokenizer.CountMessagesTokens | app/engine/tokenizer.py:66-88 | The total is the content estimates plus one overhead per message plus one more for the assistant prompt. The overhead is 7 for chatml, 12 for llama3 and 5 otherwise. So the total is at least 3 per message plus one overhead. |
| Tokenizer.FilterRoles | app/engine/tokenizer.py:117-118 | The two comprehensions split the messages by role: one has only system messages, the other none, and their lengths add up to the input's. |
| Tokenizer.KeepFrom | app/engine/tokenizer.py:143-156 | The backwards loop ends at a start position. The kept suffix fits the budget. If a message precedes the suffix, adding it would have exceeded the budget, because the loop stops at the first message that does not fit. |
| Tokenizer.KeptStart | app/engine/tokenizer.py:134-156 | The kept run is never empty and fits the budget unless it is the oversized last message alone. The message before it would not fit. |
| Tokenizer.EstimateTrimmedMessages | app/engine/tokenizer.py:113-162 | No messages gives `[]`. When the system cost uses up the budget, the result is the first system message or `[]`. Otherwise it is every system message in order, then a contiguous suffix of the conversation that ends with the last message. That suffix is non-empty when there is conversation, and it fits the remaining budget unless it is the last message alone. |
| Tokenizer.TrimKeepsLongestFittingSuffix | app/engine/tokenizer.py:143-156 | Maximality: every conversation suffix longer than the kept one costs more than the remaining budget. |
| Tokenizer.TrimOversizedLast | app/engine/tokenizer.py:134-141 | When the last conversation message alone exceeds the remaining budget, the result is the system messages followed by that message. |
| Tokenizer.TrimIgnoresTemplate | app/engine/tokenizer.py:121-166 | Every message costs its estimate plus 7 whatever the template. The result does not depend on `template`, which only feeds the log line. |
| Tokenizer.TrimIdempotent | app/engine/tokenizer.py:113-162 | Trimming an already trimmed list with the same budget returns it unchanged. |
| OrderedMaps.Assign | app/storage/cache.py:75 | `d[k] = v`: the key maps to `v`. An existing key keeps its place and a new key goes last. |
| OrderedMaps.Delete | app/storage/cache.py:53 | `del d[k]`: only that key is removed, and the others stay in order with their values. Python raises KeyError for an absent key. Here an absent key changes nothing, which no caller reaches, because every call site tests `k in d` first. |
| OrderedMaps.MoveToEnd | app/storage/cache.py:57 | `move_to_end`: the key becomes the last one, the others keep their order and all values are unchanged. |
| OrderedMaps.EvictOldest | app/storage/cache.py:79-82 | The eviction loop drops exactly the first `max(0, n - cap)` keys, oldest first. It keeps the rest in order with their values. |
| OrderedMaps.EvictKeepsNewest | app/storage/cache.py:79-82 | After eviction at most `cap` keys remain. With `cap >= 1` the newest key survives with its value. |
| OrderedMaps.DeleteEach | app/storage/cache.py:122-123 | Deleting a list of keys removes exactly those present and keeps the others in order with their values. |
| TtlCache.NewCache | app/storage/cache.py:20-31 | A new cache is empty and has the given size limit and default TTL. |
| TtlCache.Get | app/storage/cache.py:33-59 | A hit happens exactly when the key is present and `now > expiry` is false, so at `now == expiry` it is still a hit. An absent key changes nothing. An expired key is deleted. A hit returns the stored value and moves the key to the most recent end. |
| TtlCache.StoreAsRecent | app/storage/cache.py:74-76 | Storing the entry and moving it to the end leaves the key last, holding the new entry. |
| TtlCache.Set | app/storage/cache.py:61-84 | The entry `(value, now + ttl)` is stored, with the default TTL used only when none is given. Afterwards the size is `min(n', max_size)` and within the limit, and the survivors are the newest keys. With `max_size >= 1` the written key survives, last. Other keys' entries are unchanged. |
| TtlCache.Invalidate | app/storage/cache.py:86-96 | Only that key is removed, the others stay in order, and an absent key changes nothing. |
| TtlCache.Clear | app/storage/cache.py:98-102 | The cache becomes empty and keeps its limits. |
| TtlCache.CleanupExpired | app/storage/cache.py:108-128 | Exactly the entries with `now > expiry` are removed. The rest stay in order with their values. The count returned plus the new size is the old size. |
| TtlCache.SetThenGet | app/storage/cache.py:33-84 | With room for one entry and a non-negative TTL, a value just set is read back. |
| TtlCache.SetOverwrites | app/storage/cache.py:71-82 | A second set of the same key overwrites the first, and the cache stays within its limit. |
| TtlCache.CleanupIdempotent | app/storage/cache.py:115-128 | After one cleanup, a second at the same instant removes nothing. |
| ModelLoader.NewLoader | app/services/model_loader.py:26-35 | A new loader has an empty cache with the given capacity. |
| ModelLoader.GetOrLoadModel | app/services/model_loader.py:39-98 | A hit returns the cached instance, moves it to the most recent end and changes nothing else. An unregistered name gives ModelNotFoundError and no change. A missing model file gives ModelNotFoundError, and a failed load gives ModelLoadError, both with no change. A successful miss is `Admit`. |
| ModelLoader.Admit | app/services/model_loader.py:77-87 | The name is appended and marked loaded. Then the oldest `max(0, n + 1 - max_models)` names are closed in order, removed and marked unloaded. The cache ends as the remaining suffix. The new model survives when `max_models >= 1`. Only the `loaded` flags of the new name and the closed names change in the registry. Every other record stays as it was, and the registry's key order is kept. |
| ModelLoader.AdmitToCache | app/services/model_loader.py:78-87 | This is the cache half of a successful miss. The kept suffix is within capacity. Survivors other than the new name keep their instances. |
| ModelLoader.UnloadModel | app/services/model_loader.py:100-126 | A present name is closed, removed (the others stay in order) and marked unloaded. An absent name changes nothing. |
| ModelLoader.UnloadAll | app/services/model_loader.py:138-145 | Every cached model is closed in oldest-first order. The cache ends empty. Each closed name's record changes only in being marked unloaded, the registry keeps its names in their order, and the records of uncached models stay as they were. |
| ModelLoader.GetLoadedModels | app/services/model_loader.py:147-155 | Returns the cache's key order, least recently used first, without repeats and within capacity; a name is listed exactly when it is cached. |
| ModelLoader.IsLoaded | app/services/model_loader.py:157-168 | True exactly when the name is among the loaded models. |
| ModelLoader.HitIgnoresLoader | app/services/model_loader.py:55-59 | A hit never calls the load function. |
| ModelLoader.MissWithRoom | app/services/model_loader.py:77-87 | Below capacity, a miss appends the model, closes nothing and marks it loaded. |
| ModelLoader.MissAtCapacity | app/services/model_loader.py:83-87 | At capacity, a miss closes exactly the least recently used model and marks it unloaded. |
| ModelLoader.HitMovesToEnd | app/services/model_loader.py:55-59 | A hit on the i-th name cuts it out and puts it last. |
| ModelLoader.EvictsLeastRecentlyUsed | app/services/model_loader.py:39-98 | With capacity two, loading a, b and then c closes a only. It leaves `[b, c]` loaded, marks a unloaded and marks c loaded. |
| ModelLoader.HitRefreshesRecency | app/services/model_loader.py:39-98 | With a and b cached at capacity two, a hit on a followed by loading c closes b, not a. |
| Templates.TurnOf | app/core/templates.py:30-39 | A role string is recognised exactly when it is system, user or assistant. |
| Templates.RenderTurn | app/core/templates.py:30-39 | A system, user or assistant message is its role's format with the content in place of `{content}`, so the content is a substring of it. A message of any other role renders as nothing. |
| Templates.RenderAll | app/core/templates.py:28-39 | No messages render as nothing, and the content of every system, user or assistant message appears in the rendering. |
| Templates.UnknownRolesRenderNothing | app/core/templates.py:30-39 | Messages whose roles are none of system, user and assistant render as nothing. |
| Templates.GenerationPrefix | app/core/templates.py:41-43 | The assistant format's text before `{content}` when there are messages and the last role is not "assistant", and nothing otherwise. |
| Templates.GetTemplate | app/core/templates.py:107-121 | Returns a template exactly for the five registered families, carrying the family's name and at least one stop token. Otherwise it raises ValueError, without a fallback. |
| Templates.BuildPrompt | app/core/templates.py:26-45 | The prompt starts with `bos_token`, and an empty list yields exactly `bos_token`. After a non-assistant last message the prompt ends with the assistant prefix. After an assistant message it ends with that message's rendering. |
| Templates.TurnInPlace | app/core/templates.py:28-45 | The prompt is BOS, then the messages before i, message i in its role's format, the messages after i, and then the generation prefix. |
| Templates.ContentAppears | app/core/templates.py:30-45 | The content of every system, user or assistant message is a substring of the prompt. |
| Templates.CharAbsent | app/core/templates.py:26-45 | A character absent from BOS, from every format part and from every content is absent from the prompt. |
| Templates.LlamaSingleUser | app/core/templates.py:51-59 | One user message under llama renders as `<s>[INST] content [/INST]`. |
| Templates.LlamaSingleBos | tests/unit/test_templates.py:46-67 | That prompt starts with `<s>[INST]`. For content without `<`, `<s>` occurs only at the start. |
| Templates.TemplatesWellFormed | tests/unit/test_templates.py:22-28 | `get_template` returns the registry's own entry, and every registered template has name equal to its key and a non-empty stop-token list. |
| Prompt.NewPromptBuilder | app/core/prompt.py:28-43 | Construction fails with ValueError exactly when the family has no template. Otherwise it holds `get_template(family)`. |
| Prompt.ToTurns | app/core/prompt.py:61-66 | Each message becomes a role/content turn, in order. |
| Prompt.Build | app/core/prompt.py:45-96 | An empty list raises ValueError. Otherwise the result succeeds exactly when the template's output contains none of `<s>`, `</s>` and `<|begin_of_text|>`. On success it is exactly that output, and on failure the error is the leak error. |
| Prompt.LeakGuard | app/core/prompt.py:69-86 | The three guards on the stripped text fire exactly when the prompt contains a refused token, and they fire with the leak error. |
| Prompt.StrippedGuard | app/core/prompt.py:69-83 | Stripping leading whitespace changes none of the guards' verdicts. |
| Prompt.GetStopTokens | app/core/prompt.py:98-109 | Returns the template's stop tokens. |
| Prompt.BuilderHasStopTokens | app/core/prompt.py:98-109 | Every builder that can be built has at least one stop token. |
| Prompt.BosFamiliesAlwaysFail | app/core/prompt.py:69-86 | For llama, mistral and llama3, every non-empty message list fails with the leak error. |
| Prompt.PhiCleanMessagesPass | app/core/prompt.py:58-96 | For phi, messages without `<` always pass and yield the template's output. |
| Sanitizer.NewSanitizer | app/engine/sanitizer.py:23-31 | Only describes the constructed value: the given stop tokens and an empty buffer. |
| Sanitizer.Recent | app/engine/sanitizer.py:97 | `buffer[-20:]`: the last `min(20, n)` tokens. |
| Sanitizer.AnyStopIn | app/engine/sanitizer.py:100-104 | The loop returns true exactly when some stop token is a substring of the text. |
| Sanitizer.ShouldStop | app/engine/sanitizer.py:85-104 | The token is appended to the buffer. The verdict is true exactly when some stop token occurs in the joined last twenty tokens, and it is never true with no stop tokens. |
| Sanitizer.SanitizeToken | app/engine/sanitizer.py:106-137 | It updates the buffer as `should_stop` does. A stop verdict gives `None` before any cleanup; otherwise the cleanup decides. |
| Sanitizer.Reset | app/engine/sanitizer.py:139-141 | The buffer becomes empty and the stop tokens are kept. |
| Sanitizer.ResetForgetsHistory | app/engine/sanitizer.py:139-141 | After a reset, the next verdict depends on the new token alone. |
| Sanitizer.TokenWithStopStops | app/engine/sanitizer.py:96-104 | A token that contains a stop token always stops. |
| Sanitizer.StopsOnEndOfSequence | tests/unit/test_sanitizer.py:67-74 | With stop tokens `</s>` and `STOP`, the tokens "Hello", " world" and "</s>" give false, false and true, and the buffer grows by one token per call. |
| Streaming.AttachedSession | app/engine/streaming.py:56-57 | The session id is attached exactly when it is given and non-empty. |
| Streaming.StreamAsEvents | app/engine/streaming.py:16-72 | n tokens give n token events in order, then exactly one final event. That event is the completion event with the joined text, count n and the attached session id, or the error event when the source raised. |
| Streaming.TokensRoundTrip | app/engine/streaming.py:37-59 | Reading the token events of such a stream gives back exactly the source's tokens. |
| Streaming.CollectResponse | app/engine/streaming.py:75-104 | The `+=` loop returns the tokens joined in order and the count n, the same text and count as the completion event of `StreamAsEvents`, so every token is a substring of the text. A source error is raised again unchanged. |
| Streaming.NewAccumulator | app/engine/streaming.py:123-125 | Only describes the constructed value: no tokens, a zero count, and an empty full text. |
| Streaming.FullText | app/engine/streaming.py:132-134 | Every added token is a substring of the full text. |
| Streaming.AddToken | app/engine/streaming.py:127-130 | Appends the token and keeps the count equal to the number of tokens. |
| Streaming.ResetAccumulator | app/engine/streaming.py:136-139 | Back to the empty accumulator. |
| Streaming.AccumulatesTokens | app/engine/streaming.py:120-134 | Feeding tokens one by one to a fresh accumulator keeps the count equal to their number, and the full text is their concatenation. |
| Inference.Defaults | app/services/inference.py:94-101 | Only describes the constructed value: temperature, `top_p` and `max_tokens` from the settings, `top_k` 40, `repeat_penalty` 1.1 and no stop list. |
| Inference.RequestFor | app/services/inference.py:64-73 | Only describes the constructed value: the backend call receives the prompt, the merged sampling options, the caller's stop tokens (the template's from `chat`, none from `generate`) and the stream flag. |
| Inference.MergeOptions | app/services/inference.py:83-118 | No options gives the defaults. Otherwise each given field replaces its default, and each absent field keeps it. |
| Inference.EmptyOptionsAreDefaults | app/services/inference.py:104-116 | Options with no field given merge exactly as no options. |
| Inference.PenaltiesIgnored | app/services/inference.py:94-116 | The presence and frequency penalties never influence the merged options. |
| Inference.TemperatureOverridesOnlyItself | app/services/inference.py:105-106 | Giving the temperature changes the temperature and nothing else. |
| Inference.TopKOverridesOnlyItself | app/services/inference.py:111-112 | Giving `top_k` changes `top_k` and nothing else. |
| Inference.Infer | app/services/inference.py:26-81 | Loader errors reach the caller unchanged, before any token. The backend's tokens pass through in order. A backend failure becomes InferenceError naming the model, with message "Inference failed: …". |
| Inference.StopOptionIgnored | app/services/inference.py:71 | `options.stop` has no effect on `infer`. |
| Inference.UnknownModelFailsFirst | app/services/inference.py:51 | An unknown model yields no tokens, the registry's ModelNotFoundError, and no change of state. |
| Catalog.Lookup | app/models/catalog.py:69 | `dict.get` finds an entry exactly when the name is a key. In a table with distinct names, that entry is the key's own entry. |
| Catalog.IsModelInCatalog | app/models/catalog.py:107-117 | True exactly when some catalog entry has the name. |
| Catalog.GetModelFromCatalog | app/models/catalog.py:59-69 | Returns an entry exactly when `is_model_in_catalog` holds, and that entry is the catalog's entry for the name. |
| Catalog.ListRecords | app/models/catalog.py:79-82 | One record per entry, in catalog order, each being the name together with the metadata. |
| Catalog.ListCatalogModels | app/models/catalog.py:72-82 | One record per catalog entry, in catalog order, with no name twice, and each record's name looks up its own metadata. |
| Catalog.Search | app/models/catalog.py:95-104 | Exactly the entries whose lower-cased name, description or family contains the lower-cased query, in catalog order. |
| Catalog.SearchCatalog | app/models/catalog.py:85-104 | Exactly the records of the matching catalog entries, in catalog order, with no name twice. Every result matches the query, and every matching entry is among the results. |
| Catalog.EmptyQueryListsAll | app/models/catalog.py:95-104 | Searching for the empty string lists the whole catalog. |
| Catalog.CatalogNamesDistinct | app/models/catalog.py:10-57 | The catalog's names are distinct. |
| Catalog.CatalogWellFormed | tests/unit/test_catalog.py:16-34 | The catalog holds five models with positive context sizes and sizes. |
| Catalog.LookupExamples | tests/unit/test_catalog.py:36-48 | "phi-2" is found with its own entry, and "nonexistent-model" is not found. |
| Registry.EmptyRegistry | app/models/registry.py:32 | A new registry is well formed and has no models. |
| Registry.GetModel | app/models/registry.py:120-136 | Returns the record exactly when the name is registered. Otherwise it gives ModelNotFoundError for that name. |
| Registry.ListModels | app/models/registry.py:195-203 | Returns exactly the registered records, in registration order. |
| Registry.RegisterModel | app/models/registry.py:205-234 | The record is built from the config with `loaded=False` and `size_mb = bytes // 1048576`, or 0 for a missing file. It is stored under the given name, overwriting any earlier record. A new name goes last in the registry's order, and a re-registered name keeps its place. `get_model` then returns it. |
| Registry.UpdateModelLoadedStatus | app/models/registry.py:236-246 | Only the `loaded` flag of a registered model changes, and an unknown name changes nothing. |
| Registry.MarkUnloaded | app/models/registry.py:236-246 | The listed registered models end unloaded with every other field kept, and every other record is unchanged. |
| Registry.LoadModelInfo | app/models/registry.py:65-118 | A directory without `*.gguf` files, or with an unparseable `config.json`, gives no record. A missing `config.json` gives the default record: directory name, family and quantization "unknown", context 4096, template "chatml". The size is that of the first `*.gguf` file. |
| ConfigGenerator.DigitsEnd | app/models/config_generator.py:29 | The `\d+` scan ends at the first non-digit. |
| ConfigGenerator.QMatchAt | app/models/config_generator.py:29-37 | A match of the first pattern at i ends after i. |
| ConfigGenerator.QMatchSound | app/models/config_generator.py:29 | What the scanner matches is a word of `Q\d+_[KM0](?:_[SMLXYZ])?`, ignoring case. |
| ConfigGenerator.QMatchComplete | app/models/config_generator.py:29 | Every word of that language at i is found, and the scanner's match is the longest one, as the greedy optional group takes it. |
| ConfigGenerator.FindQ | app/models/config_generator.py:34-37 | `re.search` with the first pattern finds the leftmost match. |
| ConfigGenerator.FindLiteral | app/models/config_generator.py:34-37 | `re.search` with `F16` or `F32` finds the leftmost case-insensitive occurrence. |
| ConfigGenerator.DetectQuantization | app/models/config_generator.py:17-41 | "unknown" exactly when no pattern matches. Otherwise the upper-cased leftmost `Q…` match, else "F16", else "F32", in that order of priority. |
| ConfigGenerator.NoQNoMatch | app/models/config_generator.py:29 | A name without `q`/`Q` has no match of the first pattern. |
| ConfigGenerator.DetectsQ4KM | app/models/config_generator.py:17-37 | `model.Q4_K_M.gguf` gives `Q4_K_M`. |
| ConfigGenerator.GenerateConfig | app/models/config_generator.py:44-96 | The quantization is detected from the file name. The parameters are the defaults (0.7, 0.9, 1.1) overridden key by key. `description` is present exactly when it is a non-empty string. |
| ConfigGenerator.CreateModelConfig | app/models/config_generator.py:113-140 | The config of a downloaded model carries the catalog's family, template and context size, the default parameters, and the catalog's description when it is non-empty. |
| ConfigGenerator.CreatedQuantizationUnknown | app/models/config_generator.py:129-140 | The saved file is always `model.gguf`, so the recorded quantization is "unknown". |
| Schemas.ParseRole | app/models/schemas.py:18 | A role is accepted exactly when it is system, user or assistant, and it names itself back. |
| Schemas.ValidateOptions | app/models/schemas.py:37-44 | Options are accepted exactly when every present field is in bounds. The bounds are temperature in [0, 2], top_p in [0, 1], top_k ≥ 0, max_tokens ≥ 1, repeat_penalty ≥ 0, and presence and frequency penalties in [-2, 2]. Accepted options are unchanged. |
| Schemas.ValidateOptionalOptions | app/models/schemas.py:67 | Absent options are accepted. Present options are accepted as `ValidateOptions` decides. |
| Schemas.ValidateChatRequest | app/models/schemas.py:60-75 | Accepted exactly when there is at least one message and the options are valid. The messages are handed back unchanged. |
| Schemas.ValidateGenerateRequest | app/models/schemas.py:127-133 | Accepted exactly when the prompt is non-empty and the options are valid. |
| Schemas.ValidateEmbeddingRequest | app/models/schemas.py:237-241 | Accepted exactly when the input is non-empty. |
| Text.ContainsIff | app/engine/sanitizer.py:101 | Python's `sub in s` as a suffix scan agrees with "occurs at some position". |
| Text.LStrip | app/core/prompt.py:69 | `lstrip()` drops exactly the leading whitespace characters that `str.isspace` accepts. |

## Left out

- **I/O and foreign code.** The llama.cpp backend, model files, directory scanning, JSON reading and writing, and `save_config` are left out. Loading, generation and the cleanup patterns are function parameters. A missing file and a parse failure are data.
- **Locks.** The locks of the loader, cache and registry only serialise calls, so the operations are sequential functions.
- **Logging.** Logging is left out; the trimmer's log line is why `template` has no effect.
- **Time.** `time.time()` is a float. The cache takes an integer `now` and an integer TTL.
- **Floats.** The option values and defaults are `real`.
- **Case and digits.** `str.lower`/`str.upper` and `\d` are modelled for ASCII only.
- **Negative capacities.** Cache and loader capacities are natural numbers. A negative `max_size` or `max_models` makes the Python eviction loop fail on an empty dict, which is not modelled.
- **Config read errors.** An exception from reading the model's `config.json` inside `get_or_load_model` is not modelled (`get_model_config`, app/models/registry.py:162-193). Neither is an exception from `close()` or from the registry update inside the load's `try`, which would surface as ModelLoadError.
- **`preload_model`.** It is a call of `get_or_load_model`.
- **SSE encoding.** The JSON and `data: …\n\n` text of stream events is left out; events are values. The chunk schemas' `done=False` default (app/models/schemas.py:117, 172) is left out with it. Token events are the events that are not final.
- **Regex cleanup.** `OutputSanitizer.sanitize` and the pattern loops of `sanitize_token` are left out; the cleanup is a parameter.
- **Other parts of the service.** The HTTP API, sessions, the database, embeddings, the CLI and the hardware and download helpers are not part of this model.
- **Error classes.** Python exceptions are the `Base.Error` datatype. Messages are kept where the code builds them.
- **`TtlCache.Size` and `OrderedMaps.Size`.** They are the length of the key sequence. Their meaning is stated through the other contracts, not by an `ensures` of their own.
- Streaming.FullText: its own contract states only that every token is a substring of the text. That the full text is the concatenation of the tokens is proved in `Streaming.AccumulatesTokens`.
- Templates.LlamaSingleBos: states that `<s>` occurs once only for content without `<`. Content that itself contains `<s>` would add occurrences.
- **No corrected prompt guard.** The code rejects `<s>` and `</s>` anywhere in the prompt, but the llama and mistral templates emit `<s>` as their BOS text and end every assistant turn with `</s>`. A guard that let those templates through would have to drop both checks, so the model keeps the guard exactly as the code has it.
