/** The four matching stages of `get_local_response` (api/chatbot.py):
    exact, substring, fuzzy and embedding, over the entries of the knowledge
    base in storage order. The stages here are the pure part; the store that
    owns the entries and the embedding cache is in module KnowledgeStore. */
module LocalMatcher {
  import opened Wrappers
  import opened TextNormalizer

  /** One object of the knowledge file: its keywords and its answer. */
  datatype Entry = Entry(keywords: seq<string>, response: string)

  type Vector = seq<real>

  /** The functions the matcher calls: `normalize_text` on strings (modelled
      in module TextNormalizer and supplied as `Normalizer(ucd)` by module
      KnowledgeStore; the stages are proved for any normaliser),
      `difflib.SequenceMatcher(None, a, b).ratio()` and `_cosine`, whose
      floating-point arithmetic is left out. */
  datatype Library = Library(
    normalize: string -> string,
    ratio: (string, string) -> real,
    cosine: (Vector, Vector) -> real)

  /** The thresholds of the fuzzy and the embedding stage. */
  const FuzzyThreshold: real := 0.78
  const EmbeddingThreshold: real := 0.82

  function Norm(lib: Library, s: string): string {
    lib.normalize(s)
  }

  // ---------------------------------------------------------------------
  // Stage 1: exact

  /** Some keyword of `e` normalises to the normalised input, which is not empty. */
  predicate ExactHit(lib: Library, e: Entry, ni: string) {
    exists j :: 0 <= j < |e.keywords| && Norm(lib, e.keywords[j]) == ni && ni != ""
  }

  /** The inner loop of the exact stage over the keywords of one entry. */
  function ExactInKeywords(lib: Library, kws: seq<string>, ni: string): (b: bool)
    ensures b <==> exists j :: 0 <= j < |kws| && Norm(lib, kws[j]) == ni && ni != ""
  {
    if kws == [] then false
    else
      var kwNorm := Norm(lib, kws[0]);
      (kwNorm == ni && kwNorm != "") || ExactInKeywords(lib, kws[1..], ni)
  }

  /** The exact stage: the response of the first entry, in storage order,
      with a keyword whose non-empty normalised form equals the normalised
      input. */
  function ExactStage(lib: Library, kb: seq<Entry>, ni: string): (r: Option<string>)
    ensures r.None? <==> forall i :: 0 <= i < |kb| ==> !ExactHit(lib, kb[i], ni)
    ensures r.Some? ==> exists i :: (0 <= i < |kb| && ExactHit(lib, kb[i], ni) &&
      r.value == kb[i].response && forall k :: 0 <= k < i ==> !ExactHit(lib, kb[k], ni))
  {
    if kb == [] then None
    else if ExactInKeywords(lib, kb[0].keywords, ni) then Some(kb[0].response)
    else
      var r := ExactStage(lib, kb[1..], ni);
      assert forall k :: 1 <= k < |kb| ==> kb[k] == kb[1..][k - 1];
      r
  }

  // ---------------------------------------------------------------------
  // Stage 2: substring

  /** Python's `k in s` on two strings. */
  predicate IsInfix(k: string, s: string) {
    exists i :: 0 <= i <= |s| && k <= s[i..]
  }

  /** Some keyword of `e` has a non-empty normalised form contained in the normalised input. */
  predicate SubstringHit(lib: Library, e: Entry, ni: string) {
    exists j :: 0 <= j < |e.keywords| && Norm(lib, e.keywords[j]) != "" && IsInfix(Norm(lib, e.keywords[j]), ni)
  }

  function SubstringInKeywords(lib: Library, kws: seq<string>, ni: string): (b: bool)
    ensures b <==> exists j :: 0 <= j < |kws| && Norm(lib, kws[j]) != "" && IsInfix(Norm(lib, kws[j]), ni)
  {
    if kws == [] then false
    else
      var kwNorm := Norm(lib, kws[0]);
      (kwNorm != "" && IsInfix(kwNorm, ni)) || SubstringInKeywords(lib, kws[1..], ni)
  }

  /** The substring stage: the response of the first entry, in storage
      order, with a non-empty normalised keyword inside the normalised
      input. */
  function SubstringStage(lib: Library, kb: seq<Entry>, ni: string): (r: Option<string>)
    ensures r.None? <==> forall i :: 0 <= i < |kb| ==> !SubstringHit(lib, kb[i], ni)
    ensures r.Some? ==> exists i :: (0 <= i < |kb| && SubstringHit(lib, kb[i], ni) &&
      r.value == kb[i].response && forall k :: 0 <= k < i ==> !SubstringHit(lib, kb[k], ni))
  {
    if kb == [] then None
    else if SubstringInKeywords(lib, kb[0].keywords, ni) then Some(kb[0].response)
    else
      var r := SubstringStage(lib, kb[1..], ni);
      assert forall k :: 1 <= k < |kb| ==> kb[k] == kb[1..][k - 1];
      r
  }

  // ---------------------------------------------------------------------
  // Arg-max with a strict comparison from 0.0, shared by stages 3 and 4

  /** The accumulator pair (`best_score`, index of `best_resp`) or (`best_s`, `best_i`). */
  datatype Best = Best(score: real, index: Option<nat>)

  /** What the loop `if s > best: best = s` leaves after reading `scores`
      from the start, beginning at 0.0 and no index. */
  function Tracked(scores: seq<real>): Best
    decreases |scores|
  {
    if scores == [] then Best(0.0, None)
    else
      var last := |scores| - 1;
      var b := Tracked(scores[..last]);
      if scores[last] > b.score then Best(scores[last], Some(last)) else b
  }

  /** `k` is the first position of the largest of `ss`. */
  predicate FirstMax(ss: seq<real>, k: int) {
    && 0 <= k < |ss|
    && (forall i :: 0 <= i < |ss| ==> ss[i] <= ss[k])
    && (forall i :: 0 <= i < k ==> ss[i] < ss[k])
  }

  lemma FirstMaxUnique(ss: seq<real>, k: int, m: int)
    requires FirstMax(ss, k) && FirstMax(ss, m)
    ensures k == m
  {
    assert ss[k] <= ss[m] && ss[m] <= ss[k];
  }

  /** The tracked pair is the first position of the maximum, when that
      maximum is positive, and (0.0, no index) when no score is. */
  lemma {:induction false} TrackedIsFirstMax(scores: seq<real>)
    ensures var b := Tracked(scores);
      && (b.index.None? <==> forall i :: 0 <= i < |scores| ==> scores[i] <= 0.0)
      && (b.index.None? ==> b.score == 0.0)
      && (b.index.Some? ==> FirstMax(scores, b.index.value) && scores[b.index.value] == b.score && b.score > 0.0)
      && (forall i :: 0 <= i < |scores| ==> scores[i] <= b.score)
    decreases |scores|
  {
    if scores != [] {
      var last := |scores| - 1;
      TrackedIsFirstMax(scores[..last]);
      assert forall i :: 0 <= i < last ==> scores[i] == scores[..last][i];
    }
  }

  // ---------------------------------------------------------------------
  // Stage 3: fuzzy

  /** A (normalised keyword, response) pair the fuzzy stage scores. */
  datatype Candidate = Candidate(keyword: string, response: string)

  /** The pairs of one entry, keywords with an empty normalised form skipped. */
  function EntryCandidates(lib: Library, kws: seq<string>, response: string): seq<Candidate>
    decreases |kws|
  {
    if kws == [] then []
    else
      var kwNorm := Norm(lib, kws[|kws| - 1]);
      EntryCandidates(lib, kws[..|kws| - 1], response) + (if kwNorm == "" then [] else [Candidate(kwNorm, response)])
  }

  /** All pairs of the knowledge base in the order the nested loops visit them. */
  function Candidates(lib: Library, kb: seq<Entry>): seq<Candidate>
    decreases |kb|
  {
    if kb == [] then []
    else
      var e := kb[|kb| - 1];
      Candidates(lib, kb[..|kb| - 1]) + EntryCandidates(lib, e.keywords, e.response)
  }

  /** Every pair of an entry carries a non-empty normalised keyword of that entry and its response. */
  lemma {:induction false} EntryCandidatesFrom(lib: Library, kws: seq<string>, response: string)
    ensures forall c :: c in EntryCandidates(lib, kws, response) ==>
      c.keyword != "" && c.response == response && exists j :: 0 <= j < |kws| && c.keyword == Norm(lib, kws[j])
  {
    if kws != [] {
      var init := kws[..|kws| - 1];
      EntryCandidatesFrom(lib, init, response);
      forall c | c in EntryCandidates(lib, init, response)
        ensures exists j :: 0 <= j < |kws| && c.keyword == Norm(lib, kws[j])
      {
        var j :| 0 <= j < |init| && c.keyword == Norm(lib, init[j]);
        assert kws[j] == init[j];
      }
    }
  }

  /** Every pair of the knowledge base comes from one of its entries. */
  lemma {:induction false} CandidatesFrom(lib: Library, kb: seq<Entry>)
    ensures forall c :: c in Candidates(lib, kb) ==> c.keyword != "" && exists i :: 0 <= i < |kb| && c.response == kb[i].response
  {
    if kb != [] {
      var init := kb[..|kb| - 1];
      var e := kb[|kb| - 1];
      CandidatesFrom(lib, init);
      EntryCandidatesFrom(lib, e.keywords, e.response);
      forall c | c in Candidates(lib, kb)
        ensures c.keyword != "" && exists i :: 0 <= i < |kb| && c.response == kb[i].response
      {
        if c in Candidates(lib, init) {
          var i :| 0 <= i < |init| && c.response == init[i].response;
          assert kb[i] == init[i];
        } else {
          assert c in EntryCandidates(lib, e.keywords, e.response);
          assert c.response == kb[|kb| - 1].response;
        }
      }
    }
  }

  /** `set(s.split())`. */
  function Tokens(s: string): set<string> {
    Elements(Words(s))
  }

  /** `set(ws)`. */
  function Elements(ws: seq<string>): set<string> {
    if ws == [] then {} else {ws[0]} + Elements(ws[1..])
  }

  /** `len(a & b) / (len(a | b) or 1)`: the Jaccard index of two token sets. */
  function Jaccard(a: set<string>, b: set<string>): (r: real)
    ensures 0.0 <= r <= 1.0
  {
    var inter := |a * b|;
    var union := if |a + b| == 0 then 1 else |a + b|;
    IntersectionNoLarger(a, b);
    RatioInUnitInterval(inter as real, union as real);
    inter as real / union as real
  }

  lemma IntersectionNoLarger(a: set<string>, b: set<string>)
    ensures |a * b| <= |a + b|
  {
    assert |a + b| + |a * b| == |a| + |b|;
    assert |a - b| + |a * b| == |a|;
  }

  lemma RatioInUnitInterval(x: real, y: real)
    requires 0.0 <= x <= y && y > 0.0
    ensures 0.0 <= x / y <= 1.0
  {
    assert x / y * y == x;
    assert (1.0 - x / y) * y == y - x;
  }

  /** The blended score `0.7 * seq_score + 0.3 * jacc` of one pair against the normalised input. */
  function Score(lib: Library, kw: string, ni: string): real {
    0.7 * lib.ratio(kw, ni) + 0.3 * Jaccard(Tokens(ni), Tokens(kw))
  }

  /** The score of a normalised keyword against the normalised input `ni`, as a function value. */
  function Scorer(lib: Library, ni: string): string -> real {
    kw => Score(lib, kw, ni)
  }

  /** `sc` scores every keyword as `Score` does against `ni`. */
  ghost predicate ScoredBy(sc: string -> real, lib: Library, ni: string) {
    forall kw {:trigger Score(lib, kw, ni)} :: sc(kw) == Score(lib, kw, ni)
  }

  /** The scores of the pairs `cs` in order, under the scorer `sc`. */
  function Scores(sc: string -> real, cs: seq<Candidate>): (ss: seq<real>)
    decreases |cs|
    ensures |ss| == |cs|
  {
    if cs == [] then [] else Scores(sc, cs[..|cs| - 1]) + [sc(cs[|cs| - 1].keyword)]
  }

  /** Position `i` of the scores is the score of pair `i`. */
  lemma {:induction false} ScoresAt(sc: string -> real, cs: seq<Candidate>, i: nat)
    requires i < |cs|
    ensures Scores(sc, cs)[i] == sc(cs[i].keyword)
    decreases |cs|
  {
    var last := |cs| - 1;
    if i < last {
      ScoresAt(sc, cs[..last], i);
    }
  }

  /** The response of the first best-scoring pair, provided its score
      reaches the threshold and the response is not empty. */
  function BestResponse(cs: seq<Candidate>, ss: seq<real>): (r: Option<string>)
    requires |ss| == |cs|
    ensures forall k :: FirstMax(ss, k) && ss[k] >= FuzzyThreshold && cs[k].response != "" ==> r == Some(cs[k].response)
    ensures r.Some? ==> exists k :: FirstMax(ss, k) && ss[k] >= FuzzyThreshold && cs[k].response != "" && r.value == cs[k].response
  {
    var b := Tracked(ss);
    TrackedIsFirstMax(ss);
    if b.score >= FuzzyThreshold && b.index.Some? && cs[b.index.value].response != "" then
      assert FirstMax(ss, b.index.value);
      Some(cs[b.index.value].response)
    else
      assert forall k :: FirstMax(ss, k) && ss[k] > 0.0 ==> b.index == Some(k) by {
        forall k | FirstMax(ss, k) && ss[k] > 0.0 ensures b.index == Some(k) {
          FirstMaxUnique(ss, k, b.index.value);
        }
      }
      None
  }

  /** The fuzzy stage's answer: the best response over all pairs, scored against the normalised input. */
  function FuzzyPick(lib: Library, kb: seq<Entry>, ni: string): Option<string> {
    var cs := Candidates(lib, kb);
    BestResponse(cs, Scores(Scorer(lib, ni), cs))
  }

  /** The score of every pair lies in [0, 1] when `ratio` does. */
  lemma ScoreInUnitInterval(lib: Library, kw: string, ni: string)
    requires 0.0 <= lib.ratio(kw, ni) <= 1.0
    ensures 0.0 <= Score(lib, kw, ni) <= 1.0
  {
  }

  /** The loop state of the fuzzy stage after scoring the pairs `seen`
      with scores `ss`: `bestScore` and `bestResp` are the score and the
      response of the first best pair, or 0.0 and no response when no score
      was positive. */
  predicate Scanned(seen: seq<Candidate>, ss: seq<real>, bestScore: real, bestResp: Option<string>, bestAt: Option<nat>) {
    && |ss| == |seen|
    && Tracked(ss) == Best(bestScore, bestAt)
    && (bestAt.Some? ==> bestAt.value < |seen| && bestResp == Some(seen[bestAt.value].response))
    && (bestAt.None? ==> bestResp == None)
  }

  /** The fuzzy stage as the source runs it: two nested loops over entries
      and keywords that keep the best score and its response, replacing
      them only on a strictly higher score. */
  method FuzzyStage(lib: Library, kb: seq<Entry>, ni: string) returns (r: Option<string>)
    ensures r == FuzzyPick(lib, kb, ni)
  {
    var bestScore := 0.0;
    var bestResp: Option<string> := None;
    var inputTokens := Tokens(ni);
    ghost var sc := Scorer(lib, ni);
    ghost var bestAt: Option<nat> := None;
    ghost var ss: seq<real> := [];
    var i := 0;
    while i < |kb|
      invariant 0 <= i <= |kb|
      invariant ss == Scores(sc, Candidates(lib, kb[..i]))
      invariant Scanned(Candidates(lib, kb[..i]), ss, bestScore, bestResp, bestAt)
    {
      CandidatesStep(lib, kb, i);
      bestScore, bestResp, bestAt, ss :=
        ScanKeywords(lib, sc, kb[i], ni, inputTokens, Candidates(lib, kb[..i]), ss, bestScore, bestResp, bestAt);
      i := i + 1;
    }
    assert kb[..i] == kb;
    if bestScore >= FuzzyThreshold && bestResp.Some? && bestResp.value != "" {
      r := bestResp;
    } else {
      r := None;
    }
  }

  /** The inner loop of the fuzzy stage, over the keywords of one entry,
      after the pairs `before` of the earlier entries. */
  method ScanKeywords(lib: Library, ghost sc: string -> real, item: Entry, ni: string, inputTokens: set<string>,
                      ghost before: seq<Candidate>, ghost ss0: seq<real>,
                      bestScore0: real, bestResp0: Option<string>, ghost bestAt0: Option<nat>)
    returns (bestScore: real, bestResp: Option<string>, ghost bestAt: Option<nat>, ghost ss: seq<real>)
    requires inputTokens == Tokens(ni) && ScoredBy(sc, lib, ni)
    requires ss0 == Scores(sc, before)
    requires Scanned(before, ss0, bestScore0, bestResp0, bestAt0)
    ensures ss == Scores(sc, before + EntryCandidates(lib, item.keywords, item.response))
    ensures Scanned(before + EntryCandidates(lib, item.keywords, item.response), ss, bestScore, bestResp, bestAt)
  {
    bestScore, bestResp, bestAt, ss := bestScore0, bestResp0, bestAt0, ss0;
    ghost var seen := before;
    assert item.keywords[..0] == [];
    assert before + [] == before;
    var j := 0;
    while j < |item.keywords|
      invariant 0 <= j <= |item.keywords|
      invariant seen == before + EntryCandidates(lib, item.keywords[..j], item.response)
      invariant ss == Scores(sc, seen)
      invariant Scanned(seen, ss, bestScore, bestResp, bestAt)
    {
      EntryCandidatesStep(lib, before, item.keywords, j, item.response);
      bestScore, bestResp, bestAt, seen, ss := ScanPair(lib, sc, item.keywords[j], item.response, ni, inputTokens,
                                                       seen, ss, bestScore, bestResp, bestAt);
      j := j + 1;
    }
    assert item.keywords[..j] == item.keywords;
  }

  /** The body of the inner loop: one keyword of one entry. A keyword that
      normalises to the empty string is skipped; otherwise its score replaces
      the best one only when it is strictly higher. */
  method ScanPair(lib: Library, ghost sc: string -> real, kw: string, response: string, ni: string, inputTokens: set<string>,
                  ghost seen0: seq<Candidate>, ghost ss0: seq<real>,
                  bestScore0: real, bestResp0: Option<string>, ghost bestAt0: Option<nat>)
    returns (bestScore: real, bestResp: Option<string>, ghost bestAt: Option<nat>, ghost seen: seq<Candidate>, ghost ss: seq<real>)
    requires inputTokens == Tokens(ni) && ScoredBy(sc, lib, ni)
    requires ss0 == Scores(sc, seen0)
    requires Scanned(seen0, ss0, bestScore0, bestResp0, bestAt0)
    ensures seen == seen0 + (if Norm(lib, kw) == "" then [] else [Candidate(Norm(lib, kw), response)])
    ensures ss == Scores(sc, seen)
    ensures Scanned(seen, ss, bestScore, bestResp, bestAt)
  {
    bestScore, bestResp, bestAt, seen, ss := bestScore0, bestResp0, bestAt0, seen0, ss0;
    var kwNorm := Norm(lib, kw);
    if kwNorm == "" {
      assert seen0 + [] == seen0;
      return;
    }
    var score := PairScore(lib, sc, kwNorm, ni, inputTokens);
    ghost var c := Candidate(kwNorm, response);
    ScanStep(seen0, ss0, c, score, bestScore0, bestResp0, bestAt0);
    ScoresStep(sc, seen0, c);
    seen := seen0 + [c];
    ss := ss0 + [score];
    if score > bestScore0 {
      bestScore := score;
      bestResp := Some(response);
      bestAt := Some(|seen0|);
    }
  }

  /** The score computation in the body of the inner loop, given the input's tokens. */
  method PairScore(lib: Library, ghost sc: string -> real, kwNorm: string, ni: string, inputTokens: set<string>)
    returns (score: real)
    requires inputTokens == Tokens(ni) && ScoredBy(sc, lib, ni)
    ensures score == sc(kwNorm)
  {
    var seqScore := lib.ratio(kwNorm, ni);
    var kwTokens := Tokens(kwNorm);
    var inter := |inputTokens * kwTokens|;
    var union := |inputTokens + kwTokens|;
    if union == 0 {
      union := 1;
    }
    var jacc := inter as real / union as real;
    score := 0.7 * seqScore + 0.3 * jacc;
    assert score == Score(lib, kwNorm, ni);
  }

  lemma CandidatesStep(lib: Library, kb: seq<Entry>, i: nat)
    requires i < |kb|
    ensures Candidates(lib, kb[..i + 1]) == Candidates(lib, kb[..i]) + EntryCandidates(lib, kb[i].keywords, kb[i].response)
  {
    assert kb[..i + 1][..i] == kb[..i];
  }

  /** One more keyword of an entry, after the pairs `before`. */
  lemma EntryCandidatesStep(lib: Library, before: seq<Candidate>, kws: seq<string>, j: nat, response: string)
    requires j < |kws|
    ensures before + EntryCandidates(lib, kws[..j + 1], response) == (before + EntryCandidates(lib, kws[..j], response)) +
      (if Norm(lib, kws[j]) == "" then [] else [Candidate(Norm(lib, kws[j]), response)])
  {
    assert kws[..j + 1][..j] == kws[..j];
  }

  lemma ScoresStep(sc: string -> real, cs: seq<Candidate>, c: Candidate)
    ensures Scores(sc, cs + [c]) == Scores(sc, cs) + [sc(c.keyword)]
  {
    assert (cs + [c])[..|cs|] == cs;
  }

  /** The loop state after one more scored pair: the best moves to it exactly
      on a strictly higher score. */
  lemma ScanStep(seen: seq<Candidate>, ss: seq<real>, c: Candidate, x: real,
                 bestScore: real, bestResp: Option<string>, bestAt: Option<nat>)
    requires Scanned(seen, ss, bestScore, bestResp, bestAt)
    ensures if x > bestScore then Scanned(seen + [c], ss + [x], x, Some(c.response), Some(|seen|))
      else Scanned(seen + [c], ss + [x], bestScore, bestResp, bestAt)
  {
    assert (ss + [x])[..|ss|] == ss;
    if bestAt.Some? {
      assert (seen + [c])[bestAt.value] == seen[bestAt.value];
    }
  }

  // ---------------------------------------------------------------------
  // Stage 4: embedding

  function Cosines(lib: Library, cache: seq<Vector>, q: Vector): (ss: seq<real>)
    decreases |cache|
    ensures |ss| == |cache|
    ensures forall i :: 0 <= i < |cache| ==> ss[i] == lib.cosine(q, cache[i])
  {
    if cache == [] then [] else Cosines(lib, cache[..|cache| - 1], q) + [lib.cosine(q, cache[|cache| - 1])]
  }

  /** The index `_embedding_best_index` returns for a non-empty cache: the
      first entry of maximal cosine similarity to the query, if that
      similarity reaches the threshold. */
  function EmbeddingPick(lib: Library, cache: seq<Vector>, q: Vector): (r: Option<nat>)
    ensures r.Some? <==> exists i :: 0 <= i < |cache| && lib.cosine(q, cache[i]) >= EmbeddingThreshold
    ensures r.Some? ==> r.value < |cache| && lib.cosine(q, cache[r.value]) >= EmbeddingThreshold
    ensures r.Some? ==> forall i :: 0 <= i < |cache| ==> lib.cosine(q, cache[i]) <= lib.cosine(q, cache[r.value])
    ensures r.Some? ==> forall i :: 0 <= i < r.value ==> lib.cosine(q, cache[i]) < lib.cosine(q, cache[r.value])
  {
    var b := Tracked(Cosines(lib, cache, q));
    TrackedIsFirstMax(Cosines(lib, cache, q));
    if b.score >= EmbeddingThreshold then b.index else None
  }

  /** The scoring loop of `_embedding_best_index`. */
  method BestCosineIndex(lib: Library, cache: seq<Vector>, q: Vector) returns (idx: Option<nat>)
    ensures idx == EmbeddingPick(lib, cache, q)
  {
    var bestI: Option<nat> := None;
    var bestS := 0.0;
    for i := 0 to |cache|
      invariant Tracked(Cosines(lib, cache[..i], q)) == Best(bestS, bestI)
    {
      assert cache[..i + 1][..i] == cache[..i];
      var s := lib.cosine(q, cache[i]);
      if s > bestS {
        bestS := s;
        bestI := Some(i);
      }
    }
    assert cache[..|cache|] == cache;
    if bestS >= EmbeddingThreshold {
      idx := bestI;
    } else {
      idx := None;
    }
  }

  // ---------------------------------------------------------------------
  // The cascade

  /** `get_local_response` once the knowledge base is loaded: the first stage
      that finds something answers. `embedded` is what the embedding stage
      gives (None when it is disabled, finds nothing or fails). */
  function LocalCascade(lib: Library, kb: seq<Entry>, ni: string, embedded: Option<nat>): Option<string> {
    var exact := ExactStage(lib, kb, ni);
    if exact.Some? then exact
    else
      var sub := SubstringStage(lib, kb, ni);
      if sub.Some? then sub
      else
        var fuzzy := FuzzyPick(lib, kb, ni);
        if fuzzy.Some? then fuzzy
        else if embedded.Some? && embedded.value < |kb| then Some(kb[embedded.value].response)
        else None
  }

  /** Every answer of the cascade is the response of one of the entries. */
  lemma CascadeAnswersFromEntries(lib: Library, kb: seq<Entry>, ni: string, embedded: Option<nat>)
    ensures var r := LocalCascade(lib, kb, ni, embedded);
      r.Some? ==> exists i :: 0 <= i < |kb| && r.value == kb[i].response
  {
    var fuzzy := FuzzyPick(lib, kb, ni);
    if ExactStage(lib, kb, ni).None? && SubstringStage(lib, kb, ni).None? && fuzzy.Some? {
      var cs := Candidates(lib, kb);
      var k :| FirstMax(Scores(Scorer(lib, ni), cs), k) && fuzzy == Some(cs[k].response);
      CandidatesFrom(lib, kb);
      assert cs[k] in cs;
    }
  }

  /** An exact hit answers with the first entry holding one, whatever the later stages would find. */
  lemma ExactWins(lib: Library, kb: seq<Entry>, ni: string, embedded: Option<nat>, i: nat)
    requires i < |kb| && ExactHit(lib, kb[i], ni)
    requires forall k :: 0 <= k < i ==> !ExactHit(lib, kb[k], ni)
    ensures LocalCascade(lib, kb, ni, embedded) == Some(kb[i].response)
  {
    var r := ExactStage(lib, kb, ni);
    var m :| 0 <= m < |kb| && ExactHit(lib, kb[m], ni) && r.value == kb[m].response &&
      forall k :: 0 <= k < m ==> !ExactHit(lib, kb[k], ni);
    assert m == i;
  }

  /** With no exact hit anywhere, a substring hit answers with the first entry holding one. */
  lemma SubstringWins(lib: Library, kb: seq<Entry>, ni: string, embedded: Option<nat>, i: nat)
    requires forall k :: 0 <= k < |kb| ==> !ExactHit(lib, kb[k], ni)
    requires i < |kb| && SubstringHit(lib, kb[i], ni)
    requires forall k :: 0 <= k < i ==> !SubstringHit(lib, kb[k], ni)
    ensures LocalCascade(lib, kb, ni, embedded) == Some(kb[i].response)
  {
    var r := SubstringStage(lib, kb, ni);
    var m :| 0 <= m < |kb| && SubstringHit(lib, kb[m], ni) && r.value == kb[m].response &&
      forall k :: 0 <= k < m ==> !SubstringHit(lib, kb[k], ni);
    assert m == i;
  }

  /** The embedding stage is consulted only when no keyword stage answers,
      and then its index alone decides the answer. */
  lemma EmbeddingOnlyAfterKeywordStages(lib: Library, kb: seq<Entry>, ni: string, embedded: Option<nat>)
    ensures LocalCascade(lib, kb, ni, None).Some? ==> LocalCascade(lib, kb, ni, embedded) == LocalCascade(lib, kb, ni, None)
    ensures LocalCascade(lib, kb, ni, None).None? ==>
      LocalCascade(lib, kb, ni, embedded) == if embedded.Some? && embedded.value < |kb| then Some(kb[embedded.value].response) else None
  {
  }

  // ---------------------------------------------------------------------
  // Keywords that normalise to the empty string

  /** The keywords whose normalised form is not empty, in order. */
  function DropEmpty(lib: Library, kws: seq<string>): seq<string>
    decreases |kws|
  {
    if kws == [] then []
    else
      var kw := kws[|kws| - 1];
      DropEmpty(lib, kws[..|kws| - 1]) + (if Norm(lib, kw) == "" then [] else [kw])
  }

  /** The same entries with every keyword that normalises to "" removed. */
  function Prune(lib: Library, kb: seq<Entry>): seq<Entry> {
    seq(|kb|, i requires 0 <= i < |kb| => Entry(DropEmpty(lib, kb[i].keywords), kb[i].response))
  }

  lemma {:induction false} DropEmptyMembers(lib: Library, kws: seq<string>)
    ensures forall k :: k in DropEmpty(lib, kws) <==> k in kws && Norm(lib, k) != ""
    decreases |kws|
  {
    if kws != [] {
      var init := kws[..|kws| - 1];
      DropEmptyMembers(lib, init);
      assert kws == init + [kws[|kws| - 1]];
    }
  }

  lemma {:induction false} DropEmptyCandidates(lib: Library, kws: seq<string>, response: string)
    ensures EntryCandidates(lib, DropEmpty(lib, kws), response) == EntryCandidates(lib, kws, response)
    decreases |kws|
  {
    if kws != [] {
      var init, kw := kws[..|kws| - 1], kws[|kws| - 1];
      var d := DropEmpty(lib, init);
      DropEmptyCandidates(lib, init, response);
      if Norm(lib, kw) != "" {
        assert (d + [kw])[..|d|] == d;
      } else {
        assert d + [] == d;
      }
    }
  }

  lemma ExactInKeywordsIgnoresEmpty(lib: Library, kws: seq<string>, ni: string)
    ensures ExactInKeywords(lib, DropEmpty(lib, kws), ni) == ExactInKeywords(lib, kws, ni)
  {
    var d := DropEmpty(lib, kws);
    DropEmptyMembers(lib, kws);
    if ExactInKeywords(lib, kws, ni) {
      var j :| 0 <= j < |kws| && Norm(lib, kws[j]) == ni && ni != "";
      var k :| 0 <= k < |d| && d[k] == kws[j];
    }
    if ExactInKeywords(lib, d, ni) {
      var j :| 0 <= j < |d| && Norm(lib, d[j]) == ni && ni != "";
      var k :| 0 <= k < |kws| && kws[k] == d[j];
    }
  }

  lemma SubstringInKeywordsIgnoresEmpty(lib: Library, kws: seq<string>, ni: string)
    ensures SubstringInKeywords(lib, DropEmpty(lib, kws), ni) == SubstringInKeywords(lib, kws, ni)
  {
    var d := DropEmpty(lib, kws);
    DropEmptyMembers(lib, kws);
    if SubstringInKeywords(lib, kws, ni) {
      var j :| 0 <= j < |kws| && Norm(lib, kws[j]) != "" && IsInfix(Norm(lib, kws[j]), ni);
      var k :| 0 <= k < |d| && d[k] == kws[j];
    }
    if SubstringInKeywords(lib, d, ni) {
      var j :| 0 <= j < |d| && Norm(lib, d[j]) != "" && IsInfix(Norm(lib, d[j]), ni);
      var k :| 0 <= k < |kws| && kws[k] == d[j];
    }
  }

  lemma {:induction false} ExactIgnoresEmpty(lib: Library, kb: seq<Entry>, ni: string)
    ensures ExactStage(lib, Prune(lib, kb), ni) == ExactStage(lib, kb, ni)
    decreases |kb|
  {
    if kb != [] {
      var pk := Prune(lib, kb);
      assert pk[1..] == Prune(lib, kb[1..]);
      ExactInKeywordsIgnoresEmpty(lib, kb[0].keywords, ni);
      ExactIgnoresEmpty(lib, kb[1..], ni);
    }
  }

  lemma {:induction false} SubstringIgnoresEmpty(lib: Library, kb: seq<Entry>, ni: string)
    ensures SubstringStage(lib, Prune(lib, kb), ni) == SubstringStage(lib, kb, ni)
    decreases |kb|
  {
    if kb != [] {
      var pk := Prune(lib, kb);
      assert pk[1..] == Prune(lib, kb[1..]);
      SubstringInKeywordsIgnoresEmpty(lib, kb[0].keywords, ni);
      SubstringIgnoresEmpty(lib, kb[1..], ni);
    }
  }

  lemma {:induction false} CandidatesIgnoreEmpty(lib: Library, kb: seq<Entry>)
    ensures Candidates(lib, Prune(lib, kb)) == Candidates(lib, kb)
    decreases |kb|
  {
    if kb != [] {
      var init, e := kb[..|kb| - 1], kb[|kb| - 1];
      var pk := Prune(lib, kb);
      assert pk[..|pk| - 1] == Prune(lib, init);
      CandidatesIgnoreEmpty(lib, init);
      DropEmptyCandidates(lib, e.keywords, e.response);
    }
  }

  /** A keyword whose normalised form is empty takes part in none of the
      stages: removing all such keywords from any knowledge base leaves
      every local answer as it was. */
  lemma EmptyKeywordsNeverMatch(lib: Library, kb: seq<Entry>, ni: string, embedded: Option<nat>)
    ensures LocalCascade(lib, Prune(lib, kb), ni, embedded) == LocalCascade(lib, kb, ni, embedded)
  {
    var pk := Prune(lib, kb);
    ExactIgnoresEmpty(lib, kb, ni);
    SubstringIgnoresEmpty(lib, kb, ni);
    FuzzyIgnoresEmpty(lib, kb, ni);
    if embedded.Some? && embedded.value < |kb| {
      assert pk[embedded.value].response == kb[embedded.value].response;
    }
  }

  lemma FuzzyIgnoresEmpty(lib: Library, kb: seq<Entry>, ni: string)
    ensures FuzzyPick(lib, Prune(lib, kb), ni) == FuzzyPick(lib, kb, ni)
  {
    CandidatesIgnoreEmpty(lib, kb);
  }
}
