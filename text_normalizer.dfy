/** The text normaliser of api/utils.py: the comparison key of every
    keyword match in the local matcher.

    `normalize_text` decomposes its input (NFKD), drops combining marks,
    lowercases, keeps only ASCII letters, digits and whitespace, turns every
    run of whitespace into one space and trims the ends. */
module TextNormalizer {

  /** What `normalize_text` may be handed: a Python `str`, or any other value. */
  datatype PyValue = Str(s: string) | NotStr

  /** The two character properties of the Unicode Character Database that
      NFKD-and-strip reads: the full compatibility decomposition of each
      character that has one (Unicode Standard Annex #15), and the set of
      characters whose canonical combining class is not zero
      (`unicodedata.combining(c) != 0`). The tables are a parameter of the
      model, not data in it. */
  datatype UnicodeData = UnicodeData(decomposition: map<char, string>, combining: set<char>)

  /** What the real tables say about ASCII: no ASCII character decomposes
      and none is a combining mark. */
  ghost predicate AsciiStable(u: UnicodeData) {
    && (forall c :: c in u.decomposition ==> c > '\U{7f}')
    && (forall c :: c in u.combining ==> c > '\U{7f}')
  }

  /** Whitespace as Python's `str.isspace`, `str.split`, `str.strip` and the
      `\s` class of `re` on `str` patterns see it. */
  predicate IsSpace(c: char) {
    || '\t' <= c <= '\r' || '\U{1c}' <= c <= '\U{1f}' || c == ' '
    || c == '\U{85}' || c == '\U{a0}' || c == '\U{1680}'
    || '\U{2000}' <= c <= '\U{200a}' || c == '\U{2028}' || c == '\U{2029}'
    || c == '\U{202f}' || c == '\U{205f}' || c == '\U{3000}'
  }

  /** The characters `normalize_text` can return. */
  predicate InAlphabet(c: char) {
    'a' <= c <= 'z' || '0' <= c <= '9' || c == ' '
  }

  /** What survives `re.sub(r'[^a-z0-9\s]', '', ...)`. */
  predicate Kept(c: char) {
    'a' <= c <= 'z' || '0' <= c <= '9' || IsSpace(c)
  }

  predicate NoDoubleSpace(s: string) {
    forall i :: 0 <= i < |s| - 1 && s[i] == ' ' ==> s[i + 1] != ' '
  }

  /** The shape of every normalised text: letters, digits and single spaces
      between words, nothing at either end. */
  predicate Canonical(s: string) {
    && (forall i :: 0 <= i < |s| ==> InAlphabet(s[i]))
    && (|s| > 0 ==> s[0] != ' ' && s[|s| - 1] != ' ')
    && NoDoubleSpace(s)
  }

  // ---------------------------------------------------------------------
  // The steps, in the order `normalize_text` applies them

  function Decompose(u: UnicodeData, c: char): string {
    if c in u.decomposition then u.decomposition[c] else [c]
  }

  function DropCombining(u: UnicodeData, s: string): (r: string)
    ensures |r| <= |s|
  {
    if s == [] then []
    else (if s[0] in u.combining then [] else [s[0]]) + DropCombining(u, s[1..])
  }

  /** `"".join(c for c in NFKD(s) if not combining(c))`. Decomposing character
      by character and then dropping the combining marks agrees with NFKD
      followed by the filter: canonical reordering only permutes characters
      of non-zero combining class, and those are all dropped. */
  function StripAccents(u: UnicodeData, s: string): string {
    if s == [] then [] else DropCombining(u, Decompose(u, s[0])) + StripAccents(u, s[1..])
  }

  /** `str.lower` on one character, for the characters that can reach the
      filter after it: the only characters outside ASCII whose lowercase
      contains an ASCII letter (U+0130 and U+212A) both decompose under NFKD
      and so never get here; every other non-ASCII character lowercases to
      a non-ASCII character, which the filter drops either way. */
  function LowerChar(c: char): char {
    if 'A' <= c <= 'Z' then (c as int + 32) as char else c
  }

  function Lower(s: string): (r: string)
    ensures |r| == |s|
    ensures forall i :: 0 <= i < |s| ==> r[i] == LowerChar(s[i])
  {
    if s == [] then [] else [LowerChar(s[0])] + Lower(s[1..])
  }

  /** `re.sub(r'[^a-z0-9\s]', '', s)`. */
  function KeepAllowed(s: string): (r: string)
    ensures |r| <= |s|
    ensures forall i :: 0 <= i < |r| ==> Kept(r[i])
  {
    if s == [] then []
    else (if Kept(s[0]) then [s[0]] else []) + KeepAllowed(s[1..])
  }

  /** The length of the run of whitespace that `s` starts with. */
  function LeadingSpaces(s: string): (n: nat)
    ensures n <= |s|
    ensures forall i :: 0 <= i < n ==> IsSpace(s[i])
    ensures n < |s| ==> !IsSpace(s[n])
  {
    if s != [] && IsSpace(s[0]) then 1 + LeadingSpaces(s[1..]) else 0
  }

  /** The length of the run of whitespace that `s` ends with. */
  function TrailingSpaces(s: string): (n: nat)
    ensures n <= |s|
    ensures forall i :: |s| - n <= i < |s| ==> IsSpace(s[i])
    ensures n < |s| ==> !IsSpace(s[|s| - n - 1])
  {
    if s != [] && IsSpace(s[|s| - 1]) then 1 + TrailingSpaces(s[..|s| - 1]) else 0
  }

  /** `s.lstrip()`. */
  function TrimStart(s: string): string {
    s[LeadingSpaces(s)..]
  }

  /** `s.rstrip()`. */
  function TrimEnd(s: string): string {
    s[..|s| - TrailingSpaces(s)]
  }

  /** `s.strip()`. */
  function Trim(s: string): string {
    TrimEnd(TrimStart(s))
  }

  /** The first non-whitespace run of `t`: all of `t` up to its first whitespace. */
  function TakeWord(t: string): (w: string)
    ensures |w| <= |t|
    ensures t != [] && !IsSpace(t[0]) ==> |w| > 0
  {
    if t == [] || IsSpace(t[0]) then [] else [t[0]] + TakeWord(t[1..])
  }

  /** The word is a prefix of `t` without whitespace, and it ends where `t`
      ends or at whitespace. */
  lemma {:induction false} TakeWordShape(t: string)
    ensures var w := TakeWord(t);
      && w == t[..|w|]
      && (forall i :: 0 <= i < |w| ==> !IsSpace(w[i]))
      && (|w| < |t| ==> IsSpace(t[|w|]))
    decreases |t|
  {
    if t != [] && !IsSpace(t[0]) {
      TakeWordShape(t[1..]);
    }
  }

  /** `s.split()`: the maximal runs of non-whitespace characters. */
  function Words(s: string): seq<string>
    decreases |s|
  {
    var t := TrimStart(s);
    if t == [] then []
    else
      var w := TakeWord(t);
      [w] + Words(t[|w|..])
  }

  /** `" ".join(ws)`. */
  function JoinWords(ws: seq<string>): string {
    if ws == [] then "" else if |ws| == 1 then ws[0] else ws[0] + " " + JoinWords(ws[1..])
  }

  predicate StartsWithSpace(s: string) {
    s != [] && IsSpace(s[0])
  }

  predicate EndsWithSpace(s: string) {
    s != [] && IsSpace(s[|s| - 1])
  }

  /** `re.sub(r'\s+', ' ', s)`: every maximal run of whitespace becomes one
      space; everything else is kept in order. */
  function CollapseWhitespace(s: string): (r: string)
    decreases |s|
    ensures |r| <= |s|
    ensures (r == []) == (s == [])
    ensures s != [] ==> (r[0] == ' ') == IsSpace(s[0])
    ensures NoDoubleSpace(r)
  {
    if s == [] then []
    else if IsSpace(s[0]) then " " + CollapseWhitespace(TrimStart(s))
    else [s[0]] + CollapseWhitespace(s[1..])
  }

  /** Collapsing writes no character of its own but the space: every other
      character of the result is a non-whitespace character of the input. */
  lemma {:induction false} CollapseKeepsCharacters(s: string)
    ensures FromText(CollapseWhitespace(s), s)
    decreases |s|
  {
    if s != [] {
      var t := if IsSpace(s[0]) then TrimStart(s) else s[1..];
      CollapseKeepsCharacters(t);
      SuffixMembers(s, |s| - |t|);
      var x := if IsSpace(s[0]) then ' ' else s[0];
      assert CollapseWhitespace(s) == [x] + CollapseWhitespace(t);
      ConsFromText(x, CollapseWhitespace(t), t, s);
    }
  }

  /** Every character of `r` is a space or a non-whitespace character of `s`. */
  predicate FromText(r: string, s: string) {
    forall i :: 0 <= i < |r| ==> r[i] == ' ' || (!IsSpace(r[i]) && r[i] in s)
  }

  lemma SuffixMembers(s: string, k: nat)
    requires k <= |s|
    ensures forall c :: c in s[k..] ==> c in s
  {
  }

  lemma ConsFromText(x: char, r: string, t: string, s: string)
    requires FromText(r, t) && (forall c :: c in t ==> c in s)
    requires x == ' ' || (!IsSpace(x) && x in s)
    ensures FromText([x] + r, s)
  {
    var v := [x] + r;
    assert forall i :: 1 <= i < |v| ==> v[i] == r[i - 1];
  }

  /** `normalize_text(x)`: anything but a string gives the empty string. */
  function Normalize(u: UnicodeData, x: PyValue): string {
    match x
    case NotStr => ""
    case Str(s) => Trim(CollapseWhitespace(KeepAllowed(Lower(StripAccents(u, s)))))
  }

  /** `normalize_text` on strings, as a function value. */
  function Normalizer(u: UnicodeData): string -> string {
    s => Normalize(u, Str(s))
  }

  /** Every normalised text has the canonical shape and is never longer than
      the accent-stripped input: the later steps only drop characters or
      shrink runs of whitespace. */
  lemma NormalizeShape(u: UnicodeData, x: PyValue)
    ensures Canonical(Normalize(u, x))
    ensures x.NotStr? ==> Normalize(u, x) == ""
    ensures x.Str? ==> |Normalize(u, x)| <= |StripAccents(u, x.s)|
  {
    if x.Str? {
      CleanedShape(KeepAllowed(Lower(StripAccents(u, x.s))));
    }
  }

  /** Collapsing and trimming a text of kept characters gives the canonical shape. */
  lemma CleanedShape(s: string)
    requires forall i :: 0 <= i < |s| ==> Kept(s[i])
    ensures Canonical(Trim(CollapseWhitespace(s)))
    ensures |Trim(CollapseWhitespace(s))| <= |s|
  {
    var c := CollapseWhitespace(s);
    CollapseKeepsCharacters(s);
    CollapsedAlphabet(s, c);
    TrimKeepsShape(c);
  }

  lemma CollapsedAlphabet(s: string, c: string)
    requires forall i :: 0 <= i < |s| ==> Kept(s[i])
    requires FromText(c, s)
    ensures forall i :: 0 <= i < |c| ==> InAlphabet(c[i])
  {
    forall i | 0 <= i < |c|
      ensures InAlphabet(c[i])
    {
      if c[i] != ' ' {
        var j :| 0 <= j < |s| && s[j] == c[i];
        assert Kept(s[j]);
      }
    }
  }

  /** Trimming a text of letters, digits and single spaces leaves the canonical shape. */
  lemma TrimKeepsShape(c: string)
    requires forall i :: 0 <= i < |c| ==> InAlphabet(c[i])
    requires NoDoubleSpace(c)
    ensures Canonical(Trim(c)) && |Trim(c)| <= |c|
  {
    var k := LeadingSpaces(c);
    var t := c[k..];
    var n := TrailingSpaces(t);
    assert Trim(c) == c[k..|c| - n];
    SliceShape(c, k, |c| - n);
    if k < |c| - n {
      assert c[k..|c| - n][0] == c[k];
      assert c[k..|c| - n][|c| - n - k - 1] == t[|t| - n - 1];
    }
  }

  /** A slice of a text of letters, digits and single spaces is one too. */
  lemma SliceShape(c: string, lo: nat, hi: nat)
    requires lo <= hi <= |c|
    requires forall i :: 0 <= i < |c| ==> InAlphabet(c[i])
    requires NoDoubleSpace(c)
    ensures forall i :: 0 <= i < hi - lo ==> InAlphabet(c[lo..hi][i])
    ensures NoDoubleSpace(c[lo..hi])
  {
    var r := c[lo..hi];
    assert forall i :: 0 <= i < |r| ==> r[i] == c[lo + i];
  }

  // ---------------------------------------------------------------------
  // Properties

  lemma {:induction false} StripAccentsOfAscii(u: UnicodeData, s: string)
    requires AsciiStable(u)
    requires forall i :: 0 <= i < |s| ==> s[i] <= '\U{7f}'
    ensures StripAccents(u, s) == s
  {
    if s != [] {
      assert Decompose(u, s[0]) == [s[0]];
      assert DropCombining(u, [s[0]]) == [s[0]];
      StripAccentsOfAscii(u, s[1..]);
    }
  }

  lemma LowerOfLower(s: string)
    requires forall i :: 0 <= i < |s| ==> !('A' <= s[i] <= 'Z')
    ensures Lower(s) == s
  {
  }

  lemma {:induction false} KeepAllowedOfKept(s: string)
    requires forall i :: 0 <= i < |s| ==> Kept(s[i])
    ensures KeepAllowed(s) == s
  {
    if s != [] {
      KeepAllowedOfKept(s[1..]);
    }
  }

  lemma {:induction false} CollapseOfSpaced(s: string)
    requires forall i :: 0 <= i < |s| ==> InAlphabet(s[i])
    requires NoDoubleSpace(s)
    ensures CollapseWhitespace(s) == s
    decreases |s|
  {
    if s != [] {
      var t := s[1..];
      assert forall i :: 0 <= i < |t| ==> t[i] == s[i + 1];
      CollapseOfSpaced(t);
      if s[0] == ' ' {
        assert t == [] || !IsSpace(t[0]);
        assert TrimStart(s) == t;
      }
    }
  }

  /** A text that already has the canonical shape is left as it is. */
  lemma CanonicalIsFixed(u: UnicodeData, s: string)
    requires AsciiStable(u)
    requires Canonical(s)
    ensures Normalize(u, Str(s)) == s
  {
    StripAccentsOfAscii(u, s);
    LowerOfLower(s);
    KeepAllowedOfKept(s);
    CollapseOfSpaced(s);
    TrimOfCanonical(s);
  }

  lemma TrimOfCanonical(s: string)
    requires Canonical(s)
    ensures Trim(s) == s
  {
    if s != [] {
      assert InAlphabet(s[0]) && InAlphabet(s[|s| - 1]);
      assert LeadingSpaces(s) == 0;
      assert TrailingSpaces(s) == 0;
    }
  }

  /** `normalize_text(normalize_text(x)) == normalize_text(x)`. */
  lemma NormalizeIdempotent(u: UnicodeData, x: PyValue)
    requires AsciiStable(u)
    ensures Normalize(u, Str(Normalize(u, x))) == Normalize(u, x)
  {
    NormalizeShape(u, x);
    CanonicalIsFixed(u, Normalize(u, x));
  }

  /** Upper case is folded and punctuation dropped: "Python!" becomes "python". */
  lemma NormalizePythonBang(u: UnicodeData)
    requires AsciiStable(u)
    ensures Normalize(u, Str("Python!")) == "python"
  {
    StripAccentsOfAscii(u, "Python!");
    LowerPythonBang();
    KeepPythonBang();
    CanonicalPython();
    CollapseOfSpaced("python");
    TrimOfCanonical("python");
  }

  lemma LowerPythonBang()
    ensures Lower("Python!") == "python!"
  {
    assert LowerChar('P') == 'p';
  }

  lemma KeepPythonBang()
    ensures KeepAllowed("python!") == "python"
  {
    assert "python!" == "python" + "!";
    KeepAllowedAppend("python", "!");
    KeepAllowedOfKept("python");
    assert !Kept('!');
  }

  /** The filter works character by character, so it splits over concatenation. */
  lemma {:induction false} KeepAllowedAppend(s: string, t: string)
    ensures KeepAllowed(s + t) == KeepAllowed(s) + KeepAllowed(t)
  {
    if s != [] {
      assert (s + t)[1..] == s[1..] + t;
      KeepAllowedAppend(s[1..], t);
    } else {
      assert s + t == t;
    }
  }

  /** A character survives the filter exactly when it occurs in the input and is allowed. */
  lemma {:induction false} KeepAllowedMembers(s: string)
    ensures forall c :: c in KeepAllowed(s) <==> c in s && Kept(c)
  {
    if s != [] {
      KeepAllowedMembers(s[1..]);
      assert s == [s[0]] + s[1..];
    }
  }

  /** What the filter does to one character: keep it or drop it. With
      `KeepAllowedAppend` this fixes the filter on every text. */
  lemma KeepAllowedOne(c: char)
    ensures KeepAllowed([c]) == if Kept(c) then [c] else []
  {
    assert [c][1..] == [];
  }

  // ---------------------------------------------------------------------
  // Collapsing and stripping as splitting and joining

  /** `re.sub(r'\s+', ' ', s)` is `" ".join(s.split())`, with one space in
      front when `s` starts with whitespace and one space behind when it ends
      with whitespace; a text of whitespace alone becomes a single space. */
  lemma {:induction false} CollapseIsJoin(s: string)
    ensures CollapseWhitespace(s) == Respaced(s)
    decreases |s|, 1
  {
    if s != [] && IsSpace(s[0]) {
      CollapseIsJoinAtSpace(s);
    } else if s != [] {
      CollapseIsJoinAtWord(s);
    }
  }

  /** `" ".join(s.split())`, with a space in front and behind when `s` has
      whitespace there, and `" "` for a non-empty text of whitespace. */
  function Respaced(s: string): string {
    if Words(s) == [] then (if s == [] then "" else " ")
    else (if StartsWithSpace(s) then " " else "") + JoinWords(Words(s)) + (if EndsWithSpace(s) then " " else "")
  }

  lemma {:induction false} CollapseIsJoinAtSpace(s: string)
    requires s != [] && IsSpace(s[0])
    ensures CollapseWhitespace(s) == Respaced(s)
    decreases |s|, 0
  {
    var t := TrimStart(s);
    CollapseAtSpace(s);
    WordsOfTrimmed(s);
    if t == [] {
      SpaceOnly(CollapseWhitespace(s), CollapseWhitespace(t));
    } else {
      TrimmedEnds(s);
      CollapseIsJoin(t);
      WordsOfWord(t);
      var b := if EndsWithSpace(s) then " " else "";
      LeadSpace(CollapseWhitespace(s), CollapseWhitespace(t), JoinWords(Words(s)), b);
    }
  }

  lemma {:induction false} CollapseIsJoinAtWord(s: string)
    requires s != [] && !IsSpace(s[0])
    ensures CollapseWhitespace(s) == Respaced(s)
    decreases |s|, 0
  {
    var w := TakeWord(s);
    var r := s[|w|..];
    CollapseWord(s);
    WordsOfWord(s);
    TakeWordShape(s);
    if r == [] {
      WholeWord(s);
      NoTail(CollapseWhitespace(s), w, CollapseWhitespace(r));
    } else {
      CollapseIsJoin(r);
      SameLast(s, |w|);
      var b := if EndsWithSpace(s) then " " else "";
      if Words(r) == [] {
        AllSpaceWhenNoWords(r);
        WordThenSpace(CollapseWhitespace(s), w, CollapseWhitespace(r));
      } else {
        WordThenWords(CollapseWhitespace(s), w, CollapseWhitespace(r), Words(r), b);
      }
    }
  }

  lemma CollapseAtSpace(s: string)
    requires s != [] && IsSpace(s[0])
    ensures CollapseWhitespace(s) == " " + CollapseWhitespace(TrimStart(s))
  {
  }

  // Steps of the two proofs above, on plain texts.

  lemma SpaceOnly(cs: string, ct: string)
    requires cs == " " + ct && ct == []
    ensures cs == " "
  {
  }

  lemma LeadSpace(cs: string, ct: string, j: string, b: string)
    requires cs == " " + ct && ct == "" + j + b
    ensures cs == " " + j + b
  {
  }

  lemma NoTail(cs: string, w: string, cr: string)
    requires cs == w + cr && cr == []
    ensures cs == w
  {
  }

  lemma WordThenSpace(cs: string, w: string, cr: string)
    requires cs == w + cr && cr == " "
    ensures cs == "" + JoinWords([w]) + " "
  {
  }

  lemma WordThenWords(cs: string, w: string, cr: string, ws: seq<string>, b: string)
    requires ws != []
    requires cs == w + cr && cr == " " + JoinWords(ws) + b
    ensures cs == "" + JoinWords([w] + ws) + b
  {
    assert ([w] + ws)[1..] == ws;
  }

  /** A word that takes up the whole text ends without whitespace. */
  lemma WholeWord(s: string)
    requires s != [] && !IsSpace(s[0]) && |TakeWord(s)| == |s|
    ensures Respaced(s) == TakeWord(s)
  {
    TakeWordShape(s);
    WordsOfWord(s);
    assert s[|s|..] == [];
    assert Words(s) == [TakeWord(s)];
    assert TakeWord(s) == s;
  }

  lemma SameLast(s: string, k: nat)
    requires k < |s|
    ensures var r := s[k..]; r[0] == s[k] && EndsWithSpace(r) == EndsWithSpace(s)
  {
  }

  /** What `lstrip` leaves starts without whitespace and ends where the text ends. */
  lemma TrimmedEnds(s: string)
    requires TrimStart(s) != []
    ensures !IsSpace(TrimStart(s)[0]) && EndsWithSpace(TrimStart(s)) == EndsWithSpace(s)
  {
  }

  /** Stripping the collapsed text leaves exactly `" ".join(s.split())`. */
  lemma TrimCollapseIsJoin(s: string)
    ensures Trim(CollapseWhitespace(s)) == JoinWords(Words(s))
  {
    CollapseIsJoin(s);
    var ws := Words(s);
    if ws == [] {
      if s != [] {
        TrimSpace();
      }
    } else {
      WordsShape(s);
      JoinedEnds(ws);
      var a := if StartsWithSpace(s) then " " else "";
      var b := if EndsWithSpace(s) then " " else "";
      TrimPadded(a, JoinWords(ws), b);
    }
  }

  lemma TrimSpace()
    ensures Trim(" ") == ""
  {
    assert LeadingSpaces(" ") == 1;
  }

  /** `normalize_text(s)` is `" ".join(cleaned.split())`, where `cleaned`
      is the text after the accent, case and character steps. */
  lemma NormalizeSplitsAndJoins(u: UnicodeData, s: string)
    ensures Normalize(u, Str(s)) == JoinWords(Words(KeepAllowed(Lower(StripAccents(u, s)))))
  {
    TrimCollapseIsJoin(KeepAllowed(Lower(StripAccents(u, s))));
  }

  lemma WordsOfTrimmed(s: string)
    ensures Words(TrimStart(s)) == Words(s)
  {
    var t := TrimStart(s);
    assert LeadingSpaces(t) == 0;
    assert TrimStart(t) == t;
  }

  /** A text that starts with a word splits into that word and the words of the rest. */
  lemma WordsOfWord(t: string)
    requires t != [] && !IsSpace(t[0])
    ensures Words(t) == [TakeWord(t)] + Words(t[|TakeWord(t)|..])
  {
    assert LeadingSpaces(t) == 0;
    assert TrimStart(t) == t;
  }

  lemma AllSpaceWhenNoWords(r: string)
    requires r != [] && Words(r) == []
    ensures IsSpace(r[|r| - 1])
  {
    assert TrimStart(r) == [];
    assert LeadingSpaces(r) == |r|;
  }

  /** Collapsing a text that starts with a word keeps the word as it is. */
  lemma {:induction false} CollapseWord(t: string)
    requires t != [] && !IsSpace(t[0])
    ensures CollapseWhitespace(t) == TakeWord(t) + CollapseWhitespace(t[|TakeWord(t)|..])
    decreases |t|
  {
    var u := t[1..];
    CollapseFirst(t);
    if u != [] && !IsSpace(u[0]) {
      CollapseWord(u);
      DropFirst(t, |TakeWord(u)|);
      Associate([t[0]], TakeWord(u), CollapseWhitespace(u[|TakeWord(u)|..]));
    }
  }

  /** One step of collapsing and of taking a word, on a non-whitespace first character. */
  lemma CollapseFirst(t: string)
    requires t != [] && !IsSpace(t[0])
    ensures CollapseWhitespace(t) == [t[0]] + CollapseWhitespace(t[1..])
    ensures TakeWord(t) == [t[0]] + TakeWord(t[1..])
    ensures t[1..] == [] || IsSpace(t[1..][0]) ==> TakeWord(t) == [t[0]] && t[|TakeWord(t)|..] == t[1..]
  {
  }

  lemma DropFirst(t: string, k: nat)
    requires k < |t|
    ensures t[1..][k..] == t[k + 1..]
  {
  }

  lemma Associate(a: string, b: string, c: string)
    ensures a + (b + c) == (a + b) + c
  {
  }

  /** A word of a split: non-empty, without whitespace. */
  predicate IsWord(w: string) {
    w != [] && forall i :: 0 <= i < |w| ==> !IsSpace(w[i])
  }

  predicate AllWords(ws: seq<string>) {
    forall k :: 0 <= k < |ws| ==> IsWord(ws[k])
  }

  /** Every word of a split is non-empty and holds no whitespace. */
  lemma {:induction false} WordsShape(s: string)
    ensures AllWords(Words(s))
    decreases |s|
  {
    var t := TrimStart(s);
    if t != [] {
      WordsOfTrimmed(s);
      TrimmedEnds(s);
      WordsOfWord(t);
      TakeWordShape(t);
      WordsShape(t[|TakeWord(t)|..]);
      WordsCons(TakeWord(t), Words(t[|TakeWord(t)|..]));
    }
  }

  lemma WordsCons(w: string, ws: seq<string>)
    requires IsWord(w)
    requires AllWords(ws)
    ensures AllWords([w] + ws)
  {
    var v := [w] + ws;
    assert forall k :: 1 <= k < |v| ==> v[k] == ws[k - 1];
  }

  /** Joining non-empty words without whitespace gives a text that neither
      starts nor ends with whitespace. */
  lemma {:induction false} JoinedEnds(ws: seq<string>)
    requires ws != []
    requires AllWords(ws)
    ensures JoinWords(ws) != [] && !StartsWithSpace(JoinWords(ws)) && !EndsWithSpace(JoinWords(ws))
  {
    if |ws| > 1 {
      JoinedEnds(ws[1..]);
      var j := JoinWords(ws);
      var rest := JoinWords(ws[1..]);
      assert j == ws[0] + " " + rest;
      assert j[0] == ws[0][0];
      assert j[|j| - 1] == rest[|rest| - 1];
    }
  }

  /** Stripping at most one space on each side of a stripped, non-empty text gives that text. */
  lemma TrimPadded(a: string, j: string, b: string)
    requires a == "" || a == " "
    requires b == "" || b == " "
    requires j != [] && !StartsWithSpace(j) && !EndsWithSpace(j)
    ensures Trim(a + j + b) == j
  {
    Associate(a, j, b);
    TrimStartPadded(a, j + b);
    TrimEndPadded(j, b);
  }

  lemma TrimStartPadded(a: string, x: string)
    requires a == "" || a == " "
    requires x != [] && !IsSpace(x[0])
    ensures TrimStart(a + x) == x
  {
    if a == " " {
      assert (a + x)[1..] == x;
      assert LeadingSpaces(a + x) == 1 + LeadingSpaces(x);
    } else {
      assert a + x == x;
    }
  }

  lemma TrimEndPadded(x: string, b: string)
    requires b == "" || b == " "
    requires x != [] && !IsSpace(x[|x| - 1])
    ensures TrimEnd(x + b) == x
  {
    if b == " " {
      assert (x + b)[..|x|] == x;
      assert TrailingSpaces(x + b) == 1 + TrailingSpaces(x);
    } else {
      assert x + b == x;
    }
  }

  lemma CanonicalPython()
    ensures Canonical("python")
  {
  }
}
