# Programming-tutor chatbot: answer resolution

A model of how the chatbot back end in api/chatbot.py answers a question.

- It first tries a local knowledge base of `{keywords, response}` entries.
- The local lookup is a cascade of four matchers over the normalised input, in this order:
  exact, substring, fuzzy (sequence ratio plus token Jaccard) and embedding similarity.
- When no matcher answers, it asks a chat model, either blocking or streaming.
  The request carries a mode-dependent system prompt and the recent history.

The model also covers the two text functions the matching and the page depend on:

- `normalize_text` (api/utils.py);
- the front end's `escapeHtml` (frontend/script.js).

Modules:

- `Wrappers`: `Option` and `Result`. `Result` records whether a Python call raised.
- `TextNormalizer`: `normalize_text` as a composition of its steps. Its NFKD tables are a parameter.
- `HtmlEscape`: the chain of five global replacements, and a reference per-character escaper.
- `LocalMatcher`: the four stages over a sequence of entries.
  - Exact and substring stages are recursive functions.
  - The fuzzy and embedding arg-max loops are methods proved against specification functions.
- `Provider`: the configured key and the three endpoints, modelled as functions of the request.
- `Fallback`: settings by mode, message construction, the blocking fallback, the priority of
  `get_response`, and the chunks the streaming generator yields.
- `KnowledgeStore`: the three module globals as the class `KnowledgeStore.KnowledgeStore`.
  - Its methods follow `ensure_kb_loaded`, `_prepare_kb_embeddings`, `_embedding_best_index`,
    `get_local_response`, `kb_status`, `get_response` and `stream_api_response`.
  - Each method's new state and result are tied to a function of the old state (`Reload`, `Prepare`,
    `BestIndex`, `Lookup`, `Local`). The properties are proved about those functions.

The outside world is passed in:

- The file's modification time as observed for the request. `None` means that `getmtime` found no file.
- What reading the file gives: parsed entries, or an exception.
- Whether `OPENAI_API_KEY` is set.
- The provider's answers.

Loading the knowledge file:

- `load_knowledge_base` (api/chatbot.py:19-26) returns `[]` for a missing or malformed file, but nothing calls it.
- `ensure_kb_loaded` opens the file itself (api/chatbot.py:37-38). So when the modification time has
  changed and the file is missing or does not parse, the exception escapes `get_local_response`, and so
  `get_response` and `stream_api_response`.
- If the file is missing at import time, the recorded and observed times are both `None`. The knowledge
  base then stays `None` until the file appears, and iterating it at line 54 raises. Once the file
  appears, the observed time differs from `None` and the next request loads it (api/chatbot.py:36-38).

The code also sends two system messages on the blocking path and one on the streaming path. Both are
kept as written and proved (`BlockingRequestShape`, `StreamingRequestShape`).

## Model

| member | source | states |
|---|---|---|
| TextNormalizer.NormalizeShape | api/utils.py:12-24 | The result uses only `a-z`, `0-9` and single spaces between words, with no space at either end. A non-string gives `""`. The result is never longer than the accent-stripped input. |
| TextNormalizer.NormalizeIdempotent | api/utils.py:5-24 | Normalising a normalised text changes nothing. This assumes Unicode tables in which no ASCII character decomposes or combines. |
| TextNormalizer.CanonicalIsFixed | api/utils.py:16-24 | A text already of the canonical shape passes through all five steps unchanged. |
| TextNormalizer.NormalizePythonBang | api/utils.py:20-24 | Upper case is folded and punctuation dropped: `normalize_text("Python!") == "python"`. |
| TextNormalizer.KeepAllowed | api/utils.py:21 | The filter's output holds only ASCII lowercase letters, digits and whitespace, and is never longer than its input. |
| TextNormalizer.KeepAllowedOne | api/utils.py:21 | On one character the filter gives that character when it is allowed and nothing otherwise: a removed character vanishes. |
| TextNormalizer.KeepAllowedAppend | api/utils.py:21 | The filter splits over concatenation. With `KeepAllowedOne` this fixes its result on every text. |
| TextNormalizer.KeepAllowedMembers | api/utils.py:21 | A character occurs in the output iff it occurs in the input and is allowed. |
| TextNormalizer.CollapseWhitespace | api/utils.py:24 | The output is empty iff the input is, starts with a space iff the input starts with whitespace, and never has two adjacent spaces. |
| TextNormalizer.CollapseKeepsCharacters | api/utils.py:24 | Every character of the output is a space or a non-whitespace character of the input. |
| TextNormalizer.CollapseIsJoin | api/utils.py:24 | Collapsing equals `" ".join(s.split())`, with one space in front iff `s` starts with whitespace and one behind iff it ends with whitespace. A non-empty text of whitespace alone becomes `" "`. |
| TextNormalizer.TrimCollapseIsJoin | api/utils.py:24 | Collapsing and then stripping gives exactly `" ".join(s.split())`. |
| TextNormalizer.NormalizeSplitsAndJoins | api/utils.py:12-24 | `normalize_text(s)` is `" ".join(t.split())`, where `t` is `s` after the accent, case and character steps. |
| TextNormalizer.LeadingSpaces | api/utils.py:24 | `strip` removes exactly the maximal leading run of whitespace. |
| TextNormalizer.TrailingSpaces | api/utils.py:24 | `strip` removes exactly the maximal trailing run of whitespace. |
| HtmlEscape.EscapeHtmlIsPerCharacter | frontend/script.js:222-229 | The chain of five replacements equals escaping each character on its own. Because `&` goes first, no entity written by a later step is escaped again. |
| HtmlEscape.UnescapeEscapeHtml | frontend/script.js:222-229 | Decoding the five entities, `&amp;` last, returns the original text (round trip). |
| HtmlEscape.EscapeHtmlHasNoMarkup | frontend/script.js:222-229 | The output contains no `<`, `>`, `"` or `'`. |
| HtmlEscape.EscapeHtmlAmpersandsBeginEntities | frontend/script.js:222-229 | Every `&` in the output begins one of the five entities. |
| HtmlEscape.EscapeHtmlLength | frontend/script.js:222-229 | Escaping never shortens a text. A text without special characters is returned unchanged. |
| LocalMatcher.ExactInKeywords | api/chatbot.py:55-57 | True iff some keyword's normalised form equals the non-empty normalised input. |
| LocalMatcher.ExactStage | api/chatbot.py:53-59 | None iff no entry has an exact hit. Otherwise the response of the first entry, in storage order, that has one. |
| LocalMatcher.SubstringInKeywords | api/chatbot.py:63-65 | True iff some keyword has a non-empty normalised form contained in the normalised input. |
| LocalMatcher.SubstringStage | api/chatbot.py:61-67 | None iff no entry has a substring hit. Otherwise the response of the first entry that has one. |
| LocalMatcher.TrackedIsFirstMax | api/chatbot.py:71-90 | The strict `>` update from 0.0 leaves the first position of the maximum when the maximum is positive. It leaves (0.0, none) when no score is positive. The kept score bounds all scores. |
| LocalMatcher.CandidatesFrom | api/chatbot.py:74-79 | Every scored pair has a non-empty normalised keyword and the response of some entry. |
| LocalMatcher.Jaccard | api/chatbot.py:83-86 | `inter / (union or 1)` lies in [0, 1]. |
| LocalMatcher.ScoreInUnitInterval | api/chatbot.py:81-87 | The blended score `0.7 * ratio + 0.3 * jaccard` lies in [0, 1] whenever the ratio does. |
| LocalMatcher.BestResponse | api/chatbot.py:88-93 | The answer is the response of the first best-scoring pair exactly when its score reaches 0.78 and the response is not empty. Any answer is such a response. |
| LocalMatcher.FuzzyStage | api/chatbot.py:68-95 | The nested loops return exactly `FuzzyPick`: the best response over all pairs in visiting order. |
| LocalMatcher.ScanKeywords | api/chatbot.py:75-90 | After the inner loop over one entry, the running best agrees with the scores of every pair seen so far. |
| LocalMatcher.ScanPair | api/chatbot.py:77-90 | An empty normalised keyword is skipped. Otherwise the pair is scored, and the best moves to it only on a strictly higher score. |
| LocalMatcher.PairScore | api/chatbot.py:81-87 | The score computed from the precomputed input tokens equals the blended score. |
| LocalMatcher.EmbeddingPick | api/chatbot.py:146-155 | An index is returned iff some cosine reaches 0.82. The index is the first one of maximal cosine, and is in bounds. |
| LocalMatcher.BestCosineIndex | api/chatbot.py:146-155 | The scoring loop returns exactly `EmbeddingPick`. |
| LocalMatcher.CascadeAnswersFromEntries | api/chatbot.py:47-105 | Every local answer is the response of some entry. |
| LocalMatcher.ExactWins | api/chatbot.py:53-59 | An exact hit answers with the first entry holding one, whatever the later stages would find. |
| LocalMatcher.SubstringWins | api/chatbot.py:61-67 | With no exact hit anywhere, a substring hit answers with the first entry holding one. |
| LocalMatcher.EmbeddingOnlyAfterKeywordStages | api/chatbot.py:97-105 | The embedding index matters only when the three keyword stages find nothing, and then it alone decides the answer. |
| LocalMatcher.EmptyKeywordsNeverMatch | api/chatbot.py:53-105 | For any knowledge base, removing every keyword that normalises to `""` (`Prune`) leaves the local answer unchanged, whatever the embedding stage gives. |
| LocalMatcher.ExactIgnoresEmpty | api/chatbot.py:53-59 | The exact stage gives the same answer with or without the keywords that normalise to `""`. |
| LocalMatcher.SubstringIgnoresEmpty | api/chatbot.py:61-67 | The substring stage gives the same answer with or without the keywords that normalise to `""`. |
| LocalMatcher.CandidatesIgnoreEmpty | api/chatbot.py:74-79 | The fuzzy stage scores the same pairs, in the same order, with or without the keywords that normalise to `""`. |
| LocalMatcher.FuzzyIgnoresEmpty | api/chatbot.py:68-95 | The fuzzy stage gives the same answer with or without the keywords that normalise to `""`. |
| Fallback.SettingsByMode | api/chatbot.py:192-209 | The long settings (0.3, 600, long prompt) are chosen iff the mode is "long" in any mix of cases. Every other mode gets (0.2, 300, concise prompt). |
| Fallback.DefaultModeIsConcise | api/chatbot.py:192-209 | None, `""` and "short" all give the concise settings. |
| Fallback.ModeSettings | api/chatbot.py:192-209 | The mode test of both chat paths returns exactly `Settings(mode)`. |
| Fallback.Recent | api/chatbot.py:179-180 | `history[-6:]` is the last at most six items, and all of them when there are fewer than six. |
| Fallback.ForwardedMembers | api/chatbot.py:181-185 | A message is forwarded iff it comes from a history item whose role is user or assistant and whose content is not empty. |
| Fallback.ForwardedAppend | api/chatbot.py:181-185 | The history filter keeps order: it distributes over concatenation. |
| Fallback.CollectHistory | api/chatbot.py:179-185 | The history loop returns exactly the filtered last six items. |
| Fallback.HistoryMessagesShape | api/chatbot.py:178-185 | At most six history messages are sent, none of them a system message. |
| Fallback.BlockingRequestShape | api/chatbot.py:176-220 | Sends the mode's prompt, then the concise prompt, then the history, then the user turn: two system messages. Also sends the mode's temperature and token limit, gpt-4o-mini, and no streaming. |
| Fallback.StreamingRequestShape | api/chatbot.py:273-309 | Sends the mode's prompt as the only system message, then the history and the user turn, with the mode's settings and streaming on. |
| Fallback.StreamingRequestOf | api/chatbot.py:273-309 | The messages and settings, built as the generator builds them, are exactly `StreamingRequest`. |
| Fallback.GetApiFallbackResponse | api/chatbot.py:157-229 | The method, as the source builds its request, returns exactly `ApiFallback`. |
| Fallback.ApiFallbackShape | api/chatbot.py:157-229 | The model is called iff a key is set, and then once. Without a key the offline text is returned. With a key, content comes back stripped (`Trim` of it), and a call that raised or returned no content gives the apology. |
| Fallback.RespondAfterLocal | api/chatbot.py:236-247 | The method returns exactly `Respond`: the local answer, else the fallback text, else the default text. |
| Fallback.RespondShape | api/chatbot.py:231-247 | The answer is never empty. A non-empty local answer wins with no model call. Without one, the model is asked iff a key is set. |
| Fallback.YieldedKeepsText | api/chatbot.py:310-313 | Skipping empty deltas loses no text, and no yielded chunk is empty. |
| Fallback.StreamDeltas | api/chatbot.py:310-316 | Yields the non-empty deltas in order, then the failure chunk iff the stream raised. |
| Fallback.StreamAfterLocal | api/chatbot.py:261-316 | The generator body after the local lookup yields exactly `StreamChunks`. |
| Fallback.StreamChunksShape | api/chatbot.py:258-316 | A local hit yields just that answer, and no key yields just the offline text. Otherwise the concatenated chunks are the stream's text, followed by the failure text iff it raised. No chunk is empty. |
| KnowledgeStore.ReloadSpec | api/chatbot.py:28-42 | With an unchanged time, nothing happens. Otherwise the entries are replaced, the time recorded and the embeddings cleared. The call raises iff the time changed and the file is missing or unreadable. |
| KnowledgeStore.ReloadIdempotent | api/chatbot.py:36-41 | A second call under the same observed time changes nothing. |
| KnowledgeStore.ReloadConsistent | api/chatbot.py:36-41 | A reload keeps the embedding cache consistent with the entries. |
| KnowledgeStore.JoinEmpty | api/chatbot.py:137 | `"; ".join(ws)` is empty iff `ws` is empty or a single empty keyword. |
| KnowledgeStore.EmbedAllSpec | api/chatbot.py:134-139 | Vectors exist iff no embedding call raises. They are then the embeddings of the entries' texts, one per entry, in order. |
| KnowledgeStore.Embeddings | api/chatbot.py:134-139 | The embedding loop returns exactly `EmbedAll`. |
| KnowledgeStore.PrepareSpec | api/chatbot.py:122-139 | Preparation keeps the entries and time of the reload. An absent or empty knowledge base, or a missing key, gives the empty cache with success. A cache already built is kept with success. Otherwise it succeeds iff every entry's text can be embedded, and then caches `EmbedAll`, one vector per entry in order. On failure the cache stays unbuilt. |
| KnowledgeStore.PrepareOnce | api/chatbot.py:128-129 | Once built, the embedding cache is not recomputed while the time is unchanged. |
| KnowledgeStore.BestIndexInBounds | api/chatbot.py:141-155 | A returned index's cosine reaches the threshold. It lies within the cache, and the cache matches the entries, so `knowledge_base[idx]` (line 102) never fails. |
| KnowledgeStore.LookupSpec | api/chatbot.py:53-105 | On a loaded knowledge base the stages never raise and change only the embedding cache. The answer is the cascade with an in-bounds embedding index. A keyword hit changes nothing. |
| KnowledgeStore.LocalSpec | api/chatbot.py:47-105 | The local lookup raises iff the reload raises or no knowledge base was ever loaded. Otherwise it answers by the cascade over the entries just loaded, and records the observed time. |
| KnowledgeStore.KnowledgeStore.constructor | api/chatbot.py:14-17 | All three globals start as None. |
| KnowledgeStore.KnowledgeStore.EnsureLoaded | api/chatbot.py:28-42 | The new globals are `Reload` of the old ones, or the old ones when it raises. |
| KnowledgeStore.KnowledgeStore.PrepareEmbeddings | api/chatbot.py:122-139 | The new globals and result are `Prepare` of the old globals. |
| KnowledgeStore.KnowledgeStore.EmbeddingBestIndex | api/chatbot.py:141-155 | The new globals and result are `BestIndex` of the old globals. |
| KnowledgeStore.KnowledgeStore.GetLocalResponse | api/chatbot.py:47-105 | The new globals and result are `Local` of the old globals. |
| KnowledgeStore.KnowledgeStore.Stages | api/chatbot.py:53-105 | After loading, the stages run in order and give `Lookup`. |
| KnowledgeStore.KnowledgeStore.EmbeddingStage | api/chatbot.py:97-105 | Stage 4 answers with the response at the index found, an in-bounds index. Its exceptions are absorbed. |
| KnowledgeStore.KnowledgeStore.KbStatus | api/chatbot.py:249-256 | Reloads like `ensure_kb_loaded`, then reports the entry count (0 for None) and the recorded time. |
| KnowledgeStore.KnowledgeStore.GetResponse | api/chatbot.py:231-247 | Does the local lookup, raising if it raises, then returns `Respond` on its answer. |
| KnowledgeStore.KnowledgeStore.StreamApiResponse | api/chatbot.py:258-316 | Does the local lookup, raising if it raises, then yields `StreamChunks` on its answer. |

## Left out

- HTTP layer, request parsing and the rest of the front end (api/main.py, the DOM code and `renderMarkdownSafe`): not part of this model.
- api/config.py is not part of this model. The key is a boolean.
- OpenAI client internals and `_get_client`: each endpoint is a function of its request, and "raised" is one of its outcomes.
- No network, retries or timing.
- `difflib.SequenceMatcher.ratio` and `_cosine` are parameters. Their floating-point arithmetic is not modelled, and scores are reals.
- File I/O and JSON parsing are an observed modification time and the parsed entries (or an exception).
  - The modification time is observed once per request. The second `ensure_kb_loaded` inside `_prepare_kb_embeddings` sees that same time.
- `load_knowledge_base` is never called by the code, so it is not modelled.
- Entries always carry a keyword list and a string response. The `KeyError` or `TypeError` of a malformed entry, and the defaults of `item.get`, are not modelled.
- The NFKD decomposition and combining-class tables are a parameter (`UnicodeData`), not data. The matcher is proved for any normaliser, and the knowledge store passes `normalize_text`.
- `str.lower` is modelled on ASCII only. This is exact for what survives the later ASCII filter.
- `log_message` and every log line: output only.
- Concurrency between requests sharing the module globals: not modelled. Each method runs alone.
- The import-time `ensure_kb_loaded()` is the caller's first `EnsureLoaded` after the constructor.
- KnowledgeStore.KnowledgeStore.KbStatus: does not return `json_path`, a constant path.
- The modification time, a float from `os.path.getmtime`, is an opaque token (`Option<int>`). It is only compared for equality and reported back by `kb_status`.
- Fallback.ApiFallbackShape: does not state that the fixed offline and apology texts are themselves stripped. It states this only of the model's content.
- The stream's chunks are modelled as one finite sequence, followed by whether it raised. Laziness and a consumer stopping early are not modelled.
