/** The knowledge store of api/chatbot.py: the three module globals
    `knowledge_base`, `knowledge_mtime` and `kb_embeddings`, the functions
    that keep them up to date (`ensure_kb_loaded`, `_prepare_kb_embeddings`),
    and the entry points that read them (`get_local_response`,
    `_embedding_best_index`, `kb_status`, `get_response`,
    `stream_api_response`).

    Each operation is a method of the class `KnowledgeStore` whose new state
    and result are given by a function of the old state (`Reload`, `Prepare`,
    `BestIndex`, `Local`); the properties are proved about those functions. */
module KnowledgeStore {
  import opened Wrappers
  import opened TextNormalizer
  import opened LocalMatcher
  import opened Provider
  import opened Fallback

  /** What opening chatbot.json and `json.load` give when the file is read:
      the parsed entries, or an exception. */
  datatype FileRead = Parsed(entries: seq<Entry>) | Unreadable

  /** The three globals. */
  datatype Cache = Cache(kb: Option<seq<Entry>>, mtime: Option<int>, embeddings: Option<seq<Vector>>)

  /** A state together with what the call returned or that it raised. */
  datatype Step<T> = Step(cache: Cache, result: Result<T>)

  /** The embedding cache is not built yet, empty, or holds one vector per entry. */
  predicate Consistent(c: Cache) {
    c.embeddings.None? || c.embeddings.value == [] || (c.kb.Some? && |c.embeddings.value| == |c.kb.value|)
  }

  // ---------------------------------------------------------------------
  // ensure_kb_loaded

  /** `ensure_kb_loaded` with the modification time `observed`
      (None when `getmtime` finds no file): nothing happens while it equals
      the recorded one; otherwise the file is opened and parsed, which
      raises, leaving every global as it was, when the file is gone or does
      not parse. */
  function Reload(c: Cache, observed: Option<int>, file: FileRead): Result<Cache> {
    if c.mtime == observed then Ok(c)
    else if observed.Some? && file.Parsed? then Ok(Cache(Some(file.entries), observed, None))
    else Raised
  }

  /** A load replaces the state exactly when the time differs; after it the
      recorded time is the observed one and the embedding cache is cleared. */
  lemma ReloadSpec(c: Cache, observed: Option<int>, file: FileRead)
    ensures Reload(c, observed, file).Ok? ==> Reload(c, observed, file).value.mtime == observed
    ensures c.mtime == observed ==> Reload(c, observed, file) == Ok(c)
    ensures c.mtime != observed && Reload(c, observed, file).Ok? ==>
      var t := Reload(c, observed, file).value;
      t.kb == Some(file.entries) && t.embeddings.None?
    ensures Reload(c, observed, file).Raised? <==> c.mtime != observed && (observed.None? || file.Unreadable?)
  {
  }

  /** A second call with the same observed time changes nothing, whatever the file holds by then. */
  lemma ReloadIdempotent(c: Cache, observed: Option<int>, file: FileRead, again: FileRead)
    requires Reload(c, observed, file).Ok?
    ensures Reload(Reload(c, observed, file).value, observed, again) == Reload(c, observed, file)
  {
    ReloadSpec(c, observed, file);
  }

  lemma ReloadConsistent(c: Cache, observed: Option<int>, file: FileRead)
    requires Consistent(c) && Reload(c, observed, file).Ok?
    ensures Consistent(Reload(c, observed, file).value)
  {
  }

  // ---------------------------------------------------------------------
  // _prepare_kb_embeddings

  /** `sep.join(ws)`. */
  function Join(sep: string, ws: seq<string>): string
    decreases |ws|
  {
    if ws == [] then []
    else if |ws| == 1 then ws[0]
    else Join(sep, ws[..|ws| - 1]) + sep + ws[|ws| - 1]
  }

  /** With a non-empty separator, a join is empty only for no word or a single empty word. */
  lemma JoinEmpty(sep: string, ws: seq<string>)
    requires sep != ""
    ensures Join(sep, ws) == "" <==> ws == [] || ws == [""]
  {
    if |ws| > 1 {
      assert |Join(sep, ws)| >= |sep|;
    }
  }

  /** The text embedded for an entry: its keywords joined by "; ", or its
      response when that join is empty. */
  function EntryText(e: Entry): string {
    var joined := Join("; ", e.keywords);
    if joined != "" then joined else e.response
  }

  /** One embedding per entry, in order; None when some call raises. */
  function EmbedAll(p: Provider, kb: seq<Entry>): Option<seq<Vector>>
    decreases |kb|
  {
    if kb == [] then Some([])
    else
      match EmbedAll(p, kb[..|kb| - 1])
      case None => None
      case Some(vs) =>
        match p.embed(EntryText(kb[|kb| - 1]))
        case None => None
        case Some(v) => Some(vs + [v])
  }

  /** The vectors are exactly the embeddings of the entries' texts, in order,
      and they exist exactly when no call raises. */
  lemma {:induction false} EmbedAllSpec(p: Provider, kb: seq<Entry>)
    ensures EmbedAll(p, kb).Some? <==> forall i :: 0 <= i < |kb| ==> p.embed(EntryText(kb[i])).Some?
    ensures EmbedAll(p, kb).Some? ==>
      var vs := EmbedAll(p, kb).value;
      |vs| == |kb| && forall i :: 0 <= i < |kb| ==> vs[i] == p.embed(EntryText(kb[i])).value
    decreases |kb|
  {
    if kb != [] {
      var init := kb[..|kb| - 1];
      EmbedAllSpec(p, init);
      assert forall i :: 0 <= i < |init| ==> init[i] == kb[i];
    }
  }

  /** `_prepare_kb_embeddings`: after the reload check, an absent or empty
      knowledge base and a missing key give the empty cache, a cache already
      built is kept, and otherwise one vector is computed per entry; a
      raising embedding call leaves the cache as it was. */
  function Prepare(c: Cache, p: Provider, observed: Option<int>, file: FileRead): Step<()> {
    match Reload(c, observed, file)
    case Raised => Step(c, Raised)
    case Ok(d) =>
      if d.kb.None? || d.kb.value == [] then Step(d.(embeddings := Some([])), Ok(()))
      else if d.embeddings.Some? then Step(d, Ok(()))
      else if !p.hasKey then Step(d.(embeddings := Some([])), Ok(()))
      else
        match EmbedAll(p, d.kb.value)
        case None => Step(d, Raised)
        case Some(vs) => Step(d.(embeddings := Some(vs)), Ok(()))
  }

  /** Preparing never touches the entries or the time beyond what the reload
      did. An absent or empty knowledge base and a missing key give the empty
      cache; a cache already built is kept; otherwise the preparation
      succeeds exactly when every entry's text can be embedded, and then the
      cache holds those embeddings in order, while a failure leaves the
      cache unbuilt. */
  lemma PrepareSpec(c: Cache, p: Provider, observed: Option<int>, file: FileRead)
    requires Consistent(c)
    ensures var s := Prepare(c, p, observed, file);
      && Consistent(s.cache)
      && (s.result.Raised? <==> Reload(c, observed, file).Raised? || s.cache.embeddings.None?)
      && (Reload(c, observed, file).Ok? ==>
            var d := Reload(c, observed, file).value;
            && s.cache.kb == d.kb && s.cache.mtime == d.mtime
            && (d.embeddings.Some? && d.kb.Some? && d.kb.value != [] ==> s == Step(d, Ok(())))
            && (s.result.Ok? && s.cache.embeddings.value != [] ==>
                  d.kb.Some? && |s.cache.embeddings.value| == |d.kb.value|)
            && (s.result.Ok? && d.embeddings.None? && p.hasKey && d.kb.Some? && d.kb.value != [] ==>
                  s.cache.embeddings == EmbedAll(p, d.kb.value))
            && (d.kb.None? || d.kb.value == [] ==> s == Step(d.(embeddings := Some([])), Ok(())))
            && (d.kb.Some? && d.kb.value != [] && d.embeddings.None? && !p.hasKey ==>
                  s == Step(d.(embeddings := Some([])), Ok(())))
            && (d.kb.Some? && d.kb.value != [] && d.embeddings.None? && p.hasKey ==>
                  && (s.result.Ok? <==> forall i :: 0 <= i < |d.kb.value| ==> p.embed(EntryText(d.kb.value[i])).Some?)
                  && (s.result.Raised? ==> s.cache == d)))
  {
    if Reload(c, observed, file).Ok? {
      var d := Reload(c, observed, file).value;
      ReloadConsistent(c, observed, file);
      if d.kb.Some? {
        EmbedAllSpec(p, d.kb.value);
      }
    }
  }

  /** Once built, the cache stays as it is while the file does not change. */
  lemma PrepareOnce(c: Cache, p: Provider, observed: Option<int>, file: FileRead, again: FileRead)
    requires Consistent(c) && Prepare(c, p, observed, file).result.Ok?
    ensures Prepare(Prepare(c, p, observed, file).cache, p, observed, again) == Step(Prepare(c, p, observed, file).cache, Ok(()))
  {
    PrepareSpec(c, p, observed, file);
  }

  // ---------------------------------------------------------------------
  // _embedding_best_index

  /** `_embedding_best_index(query)`: no index for an empty cache; otherwise
      the query is embedded (which may raise) and the first index of maximal
      cosine is returned when it reaches the threshold. */
  function BestIndex(c: Cache, p: Provider, lib: Library, observed: Option<int>, file: FileRead, query: string): Step<Option<nat>> {
    var s := Prepare(c, p, observed, file);
    if s.result.Raised? then Step(s.cache, Raised)
    else
      var cache := s.cache.embeddings.GetOr([]);
      if cache == [] then Step(s.cache, Ok(None))
      else
        match p.embed(query)
        case None => Step(s.cache, Raised)
        case Some(q) => Step(s.cache, Ok(EmbeddingPick(lib, cache, q)))
  }

  /** Any index returned points into the cache and so, the cache being
      consistent, into the knowledge base: the lookup `knowledge_base[idx]`
      never fails. */
  lemma BestIndexInBounds(c: Cache, p: Provider, lib: Library, observed: Option<int>, file: FileRead, query: string)
    requires Consistent(c)
    ensures var b := BestIndex(c, p, lib, observed, file, query);
      && Consistent(b.cache)
      && b.cache == Prepare(c, p, observed, file).cache
      && (b.result.Ok? && b.result.value.Some? ==>
            var cache := b.cache.embeddings.value;
            && b.cache.kb.Some? && b.result.value.value < |cache| == |b.cache.kb.value|
            && lib.cosine(p.embed(query).value, cache[b.result.value.value]) >= EmbeddingThreshold)
  {
    PrepareSpec(c, p, observed, file);
  }

  // ---------------------------------------------------------------------
  // get_local_response

  /** The functions the matcher is given: `normalize_text`, `ratio` and `_cosine`. */
  function Lib(ucd: UnicodeData, ratio: (string, string) -> real, cosine: (Vector, Vector) -> real): Library {
    Library(Normalizer(ucd), ratio, cosine)
  }

  /** The index the embedding stage contributes: none when it raised. */
  function Embedded(b: Step<Option<nat>>): Option<nat> {
    if b.result.Ok? then b.result.value else None
  }

  /** The stages of `get_local_response` on a loaded knowledge base: the
      embedding stage runs only when the keyword stages find nothing and a
      key is set, and its exceptions are caught. */
  function Lookup(d: Cache, p: Provider, lib: Library, observed: Option<int>, file: FileRead, ni: string): Step<Option<string>>
    requires d.kb.Some?
  {
    var keyword := LocalCascade(lib, d.kb.value, ni, None);
    if keyword.Some? || !p.hasKey then Step(d, Ok(keyword))
    else
      var b := BestIndex(d, p, lib, observed, file, ni);
      Step(b.cache, Ok(LocalCascade(lib, d.kb.value, ni, Embedded(b))))
  }

  /** `get_local_response(input)`: the knowledge base is reloaded if needed,
      raising if that fails, and raising when it is still None (iterating
      None); then the stages run on the normalised input. */
  function Local(c: Cache, p: Provider, ucd: UnicodeData, ratio: (string, string) -> real, cosine: (Vector, Vector) -> real,
                 observed: Option<int>, file: FileRead, input: string): Step<Option<string>>
  {
    match Reload(c, observed, file)
    case Raised => Step(c, Raised)
    case Ok(d) =>
      if d.kb.None? then Step(d, Raised)
      else Lookup(d, p, Lib(ucd, ratio, cosine), observed, file, Normalize(ucd, Str(input)))
  }

  /** On a loaded, consistent state the stages answer with the cascade over
      its entries, with an embedding index that is always in bounds, and
      change at most the embedding cache; a keyword hit changes nothing. */
  lemma LookupSpec(d: Cache, p: Provider, lib: Library, observed: Option<int>, file: FileRead, ni: string)
    requires d.kb.Some? && d.mtime == observed && Consistent(d)
    ensures var s := Lookup(d, p, lib, observed, file, ni);
      && Consistent(s.cache) && s.result.Ok?
      && s.cache.kb == d.kb && s.cache.mtime == d.mtime
      && (exists e: Option<nat> :: (e.Some? ==> e.value < |d.kb.value|) && s.result.value == LocalCascade(lib, d.kb.value, ni, e))
      && (LocalCascade(lib, d.kb.value, ni, None).Some? ==> s == Step(d, Ok(LocalCascade(lib, d.kb.value, ni, None))))
  {
    var s := Lookup(d, p, lib, observed, file, ni);
    if LocalCascade(lib, d.kb.value, ni, None).Some? || !p.hasKey {
      assert s.result.value == LocalCascade(lib, d.kb.value, ni, None);
    } else {
      var b := BestIndex(d, p, lib, observed, file, ni);
      BestIndexInBounds(d, p, lib, observed, file, ni);
      PrepareSpec(d, p, observed, file);
      ReloadSpec(d, observed, file);
      assert s.result.value == LocalCascade(lib, d.kb.value, ni, Embedded(b));
    }
  }

  /** The local lookup raises exactly when the reload does or no knowledge
      base was ever loaded; otherwise it answers from the entries just
      loaded, and the recorded time is the observed one. */
  lemma LocalSpec(c: Cache, p: Provider, ucd: UnicodeData, ratio: (string, string) -> real, cosine: (Vector, Vector) -> real,
                  observed: Option<int>, file: FileRead, input: string)
    requires Consistent(c)
    ensures var s := Local(c, p, ucd, ratio, cosine, observed, file, input);
      && Consistent(s.cache)
      && (s.result.Raised? <==> Reload(c, observed, file).Raised? || Reload(c, observed, file).value.kb.None?)
      && (s.result.Ok? ==>
            var d := Reload(c, observed, file).value;
            && s.cache.kb == d.kb && s.cache.mtime == observed
            && (exists e: Option<nat> ::
                  (e.Some? ==> e.value < |d.kb.value|) &&
                  s.result.value == LocalCascade(Lib(ucd, ratio, cosine), d.kb.value, Normalize(ucd, Str(input)), e)))
  {
    var r := Reload(c, observed, file);
    ReloadSpec(c, observed, file);
    if r.Ok? {
      ReloadConsistent(c, observed, file);
      if r.value.kb.Some? {
        LookupSpec(r.value, p, Lib(ucd, ratio, cosine), observed, file, Normalize(ucd, Str(input)));
      }
    }
  }

  // ---------------------------------------------------------------------
  // The store

  /** `kb_status()` without `json_path`. */
  datatype Status = Status(entriesCount: nat, mtime: Option<int>)

  class KnowledgeStore {
    var knowledgeBase: Option<seq<Entry>>
    var knowledgeMtime: Option<int>
    var kbEmbeddings: Option<seq<Vector>>

    function State(): Cache
      reads this
    {
      Cache(knowledgeBase, knowledgeMtime, kbEmbeddings)
    }

    predicate Valid()
      reads this
    {
      Consistent(State())
    }

    /** The globals before the import-time `ensure_kb_loaded()`, which the
        caller makes as the first `EnsureLoaded`. */
    constructor()
      ensures State() == Cache(None, None, None) && Valid()
    {
      knowledgeBase, knowledgeMtime, kbEmbeddings := None, None, None;
    }

    /** `ensure_kb_loaded()`. */
    method EnsureLoaded(observed: Option<int>, file: FileRead) returns (r: Result<()>)
      requires Valid()
      modifies this
      ensures Valid()
      ensures r.Ok? <==> Reload(old(State()), observed, file).Ok?
      ensures State() == if r.Ok? then Reload(old(State()), observed, file).value else old(State())
    {
      if knowledgeMtime != observed {
        if observed.None? || file.Unreadable? {
          return Raised;
        }
        knowledgeBase := Some(file.entries);
        knowledgeMtime := observed;
        kbEmbeddings := None;
      }
      r := Ok(());
    }

    /** `_prepare_kb_embeddings()`. */
    method PrepareEmbeddings(p: Provider, observed: Option<int>, file: FileRead) returns (r: Result<()>)
      requires Valid()
      modifies this
      ensures Valid()
      ensures Step(State(), r) == Prepare(old(State()), p, observed, file)
    {
      r := EnsureLoaded(observed, file);
      if r.Raised? {
        return;
      }
      ReloadSpec(old(State()), observed, file);
      if knowledgeBase.None? || knowledgeBase.value == [] {
        kbEmbeddings := Some([]);
        return Ok(());
      }
      if kbEmbeddings.Some? {
        return Ok(());
      }
      if !p.hasKey {
        kbEmbeddings := Some([]);
        return Ok(());
      }
      var vectors := Embeddings(p, knowledgeBase.value);
      if vectors.None? {
        return Raised;
      }
      EmbedAllSpec(p, knowledgeBase.value);
      kbEmbeddings := vectors;
      r := Ok(());
    }

    /** `_embedding_best_index(query)`. */
    method EmbeddingBestIndex(p: Provider, lib: Library, observed: Option<int>, file: FileRead, query: string)
      returns (r: Result<Option<nat>>)
      requires Valid()
      modifies this
      ensures Valid()
      ensures Step(State(), r) == BestIndex(old(State()), p, lib, observed, file, query)
    {
      var prepared := PrepareEmbeddings(p, observed, file);
      if prepared.Raised? {
        return Raised;
      }
      if kbEmbeddings.None? || kbEmbeddings.value == [] {
        return Ok(None);
      }
      var q := p.embed(query);
      if q.None? {
        return Raised;
      }
      var idx := BestCosineIndex(lib, kbEmbeddings.value, q.value);
      r := Ok(idx);
    }

    /** `get_local_response(input)`. */
    method GetLocalResponse(p: Provider, ucd: UnicodeData, ratio: (string, string) -> real, cosine: (Vector, Vector) -> real,
                            observed: Option<int>, file: FileRead, input: string)
      returns (r: Result<Option<string>>)
      requires Valid()
      modifies this
      ensures Valid()
      ensures Step(State(), r) == Local(old(State()), p, ucd, ratio, cosine, observed, file, input)
    {
      var loaded := EnsureLoaded(observed, file);
      if loaded.Raised? {
        return Raised;
      }
      ReloadSpec(old(State()), observed, file);
      var ni := Normalize(ucd, Str(input));
      if knowledgeBase.None? {
        return Raised;
      }
      var lib := Lib(ucd, ratio, cosine);
      r := Stages(p, lib, observed, file, ni);
    }

    /** The four stages of `get_local_response` once the knowledge base is loaded. */
    method Stages(p: Provider, lib: Library, observed: Option<int>, file: FileRead, ni: string)
      returns (r: Result<Option<string>>)
      requires Valid() && knowledgeBase.Some? && knowledgeMtime == observed
      modifies this
      ensures Valid()
      ensures Step(State(), r) == Lookup(old(State()), p, lib, observed, file, ni)
    {
      var kb := knowledgeBase.value;
      var exact := ExactStage(lib, kb, ni);
      if exact.Some? {
        return Ok(exact);
      }
      var sub := SubstringStage(lib, kb, ni);
      if sub.Some? {
        return Ok(sub);
      }
      var fuzzy := FuzzyStage(lib, kb, ni);
      if fuzzy.Some? {
        return Ok(fuzzy);
      }
      if !p.hasKey {
        return Ok(None);
      }
      r := EmbeddingStage(p, lib, observed, file, ni);
    }

    /** Stage 4: `knowledge_base[idx]["response"]` for the index found, with
        the exceptions of `_embedding_best_index` caught. */
    method EmbeddingStage(p: Provider, lib: Library, observed: Option<int>, file: FileRead, ni: string)
      returns (r: Result<Option<string>>)
      requires Valid() && knowledgeBase.Some? && knowledgeMtime == observed
      modifies this
      ensures Valid()
      ensures var b := BestIndex(old(State()), p, lib, observed, file, ni);
        && State() == b.cache
        && r == Ok(if Embedded(b).Some? then Some(old(knowledgeBase).value[Embedded(b).value].response) else None)
        && (Embedded(b).Some? ==> Embedded(b).value < |old(knowledgeBase).value|)
    {
      ghost var d := State();
      BestIndexInBounds(d, p, lib, observed, file, ni);
      PrepareSpec(d, p, observed, file);
      ReloadSpec(d, observed, file);
      var idx := EmbeddingBestIndex(p, lib, observed, file, ni);
      if idx.Ok? && idx.value.Some? {
        return Ok(Some(knowledgeBase.value[idx.value.value].response));
      }
      r := Ok(None);
    }

    /** `kb_status()`. */
    method KbStatus(observed: Option<int>, file: FileRead) returns (r: Result<Status>)
      requires Valid()
      modifies this
      ensures Valid()
      ensures r.Ok? <==> Reload(old(State()), observed, file).Ok?
      ensures State() == if r.Ok? then Reload(old(State()), observed, file).value else old(State())
      ensures r.Ok? ==> r.value == Status(if knowledgeBase.Some? then |knowledgeBase.value| else 0, observed)
    {
      var loaded := EnsureLoaded(observed, file);
      if loaded.Raised? {
        return Raised;
      }
      ReloadSpec(old(State()), observed, file);
      var count := if knowledgeBase.Some? then |knowledgeBase.value| else 0;
      r := Ok(Status(count, knowledgeMtime));
    }

    /** `get_response(input, history, mode)`. */
    method GetResponse(p: Provider, ucd: UnicodeData, ratio: (string, string) -> real, cosine: (Vector, Vector) -> real,
                       observed: Option<int>, file: FileRead, input: string, history: Option<seq<HistoryItem>>, mode: Option<string>)
      returns (r: Result<Reply>)
      requires Valid()
      modifies this
      ensures Valid()
      ensures var s := Local(old(State()), p, ucd, ratio, cosine, observed, file, input);
        && State() == s.cache
        && r == match s.result
                case Raised => Raised
                case Ok(local) => Ok(Respond(p, local, input, history, mode))
    {
      var local := GetLocalResponse(p, ucd, ratio, cosine, observed, file, input);
      if local.Raised? {
        return Raised;
      }
      var reply := RespondAfterLocal(p, local.value, input, history, mode);
      r := Ok(reply);
    }

    /** `stream_api_response(input, history, mode)`: all it yields. An
        exception of the local lookup is not caught by the generator. */
    method StreamApiResponse(p: Provider, ucd: UnicodeData, ratio: (string, string) -> real, cosine: (Vector, Vector) -> real,
                             observed: Option<int>, file: FileRead, input: string, history: Option<seq<HistoryItem>>, mode: Option<string>)
      returns (r: Result<seq<string>>)
      requires Valid()
      modifies this
      ensures Valid()
      ensures var s := Local(old(State()), p, ucd, ratio, cosine, observed, file, input);
        && State() == s.cache
        && r == match s.result
                case Raised => Raised
                case Ok(local) => Ok(StreamChunks(p, local, input, history, mode))
    {
      var local := GetLocalResponse(p, ucd, ratio, cosine, observed, file, input);
      if local.Raised? {
        return Raised;
      }
      var chunks := StreamAfterLocal(p, local.value, input, history, mode);
      r := Ok(chunks);
    }
  }

  /** The loop of `_prepare_kb_embeddings` that embeds the entries in order. */
  method Embeddings(p: Provider, kb: seq<Entry>) returns (vectors: Option<seq<Vector>>)
    ensures vectors == EmbedAll(p, kb)
  {
    var vs: seq<Vector> := [];
    for i := 0 to |kb|
      invariant EmbedAll(p, kb[..i]) == Some(vs)
    {
      assert kb[..i + 1][..i] == kb[..i];
      var text := EntryText(kb[i]);
      var v := p.embed(text);
      if v.None? {
        FailureSticks(p, kb, i + 1);
        return None;
      }
      vs := vs + [v.value];
    }
    assert kb[..|kb|] == kb;
    vectors := Some(vs);
  }

  /** Once an embedding call fails, no longer prefix has embeddings. */
  lemma {:induction false} FailureSticks(p: Provider, kb: seq<Entry>, n: nat)
    requires 0 < n <= |kb| && EmbedAll(p, kb[..n]).None?
    ensures EmbedAll(p, kb).None?
    decreases |kb| - n
  {
    if n < |kb| {
      assert kb[..n + 1][..n] == kb[..n];
      FailureSticks(p, kb, n + 1);
    } else {
      assert kb[..n] == kb;
    }
  }
}
