/** `escapeHtml` of frontend/script.js: five global replacements that make a
    text safe to place inside HTML. */
module HtmlEscape {

  /** `s.replace(/pat/g, rep)` for a literal pattern: scans left to right and
      replaces every non-overlapping occurrence of `pat`. */
  function ReplaceAll(s: string, pat: string, rep: string): string
    requires pat != []
    decreases |s|
  {
    if s == [] then []
    else if pat <= s then rep + ReplaceAll(s[|pat|..], pat, rep)
    else [s[0]] + ReplaceAll(s[1..], pat, rep)
  }

  /** `escapeHtml(text)`, as the source writes it: `&` first, then `<`, `>`,
      `"` and `'`. */
  function EscapeHtml(text: string): string {
    var amp := ReplaceAll(text, "&", "&amp;");
    var lt := ReplaceAll(amp, "<", "&lt;");
    var gt := ReplaceAll(lt, ">", "&gt;");
    var quot := ReplaceAll(gt, "\"", "&quot;");
    ReplaceAll(quot, "'", "&#039;")
  }

  /** The five entities `escapeHtml` writes. */
  const Entities: seq<string> := ["&amp;", "&lt;", "&gt;", "&quot;", "&#039;"]

  predicate IsSpecial(c: char) {
    c == '&' || c == '<' || c == '>' || c == '"' || c == '\''
  }

  /** What one character of the input becomes. */
  function EscapeChar(c: char): string {
    match c
    case '&' => "&amp;"
    case '<' => "&lt;"
    case '>' => "&gt;"
    case '"' => "&quot;"
    case '\'' => "&#039;"
    case _ => [c]
  }

  /** Character-by-character escaping: the reference that the chain of
      replacements is proved equal to. */
  function Escaped(s: string): string {
    if s == [] then [] else EscapeChar(s[0]) + Escaped(s[1..])
  }

  /** The inverse: decode `&lt;`, `&gt;`, `&quot;`, `&#039;`, and `&amp;`
      last, so that an escaped `&amp;lt;` comes back as `&lt;`. */
  function UnescapeHtml(html: string): string {
    var lt := ReplaceAll(html, "&lt;", "<");
    var gt := ReplaceAll(lt, "&gt;", ">");
    var quot := ReplaceAll(gt, "&quot;", "\"");
    var apos := ReplaceAll(quot, "&#039;", "'");
    ReplaceAll(apos, "&amp;", "&")
  }

  // ---------------------------------------------------------------------
  // Texts seen as sequences of pieces

  function Concat(ps: seq<string>): string {
    if ps == [] then [] else ps[0] + Concat(ps[1..])
  }

  /** Every piece equal to `pat` replaced by `rep`. */
  function Swap(ps: seq<string>, pat: string, rep: string): seq<string>
  {
    seq(|ps|, i requires 0 <= i < |ps| => if ps[i] == pat then rep else ps[i])
  }

  /** The position of a special character in the order `escapeHtml` replaces them (5 for any other). */
  function EscapeOrder(c: char): nat {
    match c
    case '&' => 0
    case '<' => 1
    case '>' => 2
    case '"' => 3
    case '\'' => 4
    case _ => 5
  }

  /** The position of a special character in the order `UnescapeHtml` restores them (5 for any other). */
  function DecodeOrder(c: char): nat {
    match c
    case '<' => 0
    case '>' => 1
    case '"' => 2
    case '\'' => 3
    case '&' => 4
    case _ => 5
  }

  /** The text after the first `k` replacements of `escapeHtml`, one piece per input character. */
  function EscapeStage(s: string, k: nat): seq<string>
  {
    seq(|s|, i requires 0 <= i < |s| => if EscapeOrder(s[i]) < k then EscapeChar(s[i]) else [s[i]])
  }

  /** The escaped text after the first `k` decoding replacements, one piece per original character. */
  function DecodeStage(s: string, k: nat): seq<string>
  {
    seq(|s|, i requires 0 <= i < |s| => if DecodeOrder(s[i]) < k then [s[i]] else EscapeChar(s[i]))
  }

  lemma {:induction false} ConcatOfChars(s: string, ps: seq<string>)
    requires |ps| == |s| && forall i :: 0 <= i < |s| ==> ps[i] == [s[i]]
    ensures Concat(ps) == s
  {
    if s != [] {
      ConcatOfChars(s[1..], ps[1..]);
    }
  }

  lemma {:induction false} ConcatOfEscapes(s: string, ps: seq<string>)
    requires |ps| == |s| && forall i :: 0 <= i < |s| ==> ps[i] == EscapeChar(s[i])
    ensures Concat(ps) == Escaped(s)
  {
    if s != [] {
      ConcatOfEscapes(s[1..], ps[1..]);
    }
  }

  /** Replacement passes over a stretch in which the pattern cannot start. */
  lemma {:induction false} ReplaceSkips(t: string, rest: string, pat: string, rep: string)
    requires pat != []
    requires forall i :: 0 <= i < |t| ==> t[i] != pat[0]
    ensures ReplaceAll(t + rest, pat, rep) == t + ReplaceAll(rest, pat, rep)
  {
    if t != [] {
      var s := t + rest;
      assert s[0] == t[0];
      assert !(pat <= s);
      assert s[1..] == t[1..] + rest;
      assert ReplaceAll(s, pat, rep) == [s[0]] + ReplaceAll(s[1..], pat, rep);
      ReplaceSkips(t[1..], rest, pat, rep);
      var x := ReplaceAll(rest, pat, rep);
      assert [t[0]] + (t[1..] + x) == ([t[0]] + t[1..]) + x;
      assert t == [t[0]] + t[1..];
    } else {
      assert t + rest == rest;
    }
  }

  /** Replacement meets a piece equal to the pattern. */
  lemma ReplaceMeets(pat: string, rest: string, rep: string)
    requires pat != []
    ensures ReplaceAll(pat + rest, pat, rep) == rep + ReplaceAll(rest, pat, rep)
  {
    assert pat <= pat + rest;
    assert (pat + rest)[|pat|..] == rest;
  }

  /** A piece that either is the pattern or can hold no start of a match:
      it differs from the pattern in its first or second character, and the
      pattern's first character occurs nowhere later in it. */
  predicate Inert(p: string, pat: string)
    requires pat != []
  {
    && p != []
    && (p != pat ==> p[0] != pat[0] || (|p| > 1 && |pat| > 1 && p[1] != pat[1]))
    && (p != pat ==> forall j :: 1 <= j < |p| ==> p[j] != pat[0])
  }

  /** Replacement goes piece by piece over inert pieces. */
  lemma {:induction false} ReplacePieces(ps: seq<string>, pat: string, rep: string)
    requires pat != []
    requires forall i :: 0 <= i < |ps| ==> Inert(ps[i], pat)
    ensures ReplaceAll(Concat(ps), pat, rep) == Concat(Swap(ps, pat, rep))
  {
    if ps != [] {
      var p, rest := ps[0], Concat(ps[1..]);
      var qs := Swap(ps, pat, rep);
      assert Inert(p, pat);
      assert forall i :: 0 <= i < |ps[1..]| ==> Inert(ps[1..][i], pat) by {
        forall i | 0 <= i < |ps[1..]| ensures Inert(ps[1..][i], pat) {
          assert ps[1..][i] == ps[i + 1];
        }
      }
      ReplacePieces(ps[1..], pat, rep);
      assert qs[1..] == Swap(ps[1..], pat, rep);
      assert Concat(qs) == qs[0] + Concat(qs[1..]);
      PieceStep(p, rest, pat, rep);
    }
  }

  /** One inert piece in front of the rest. */
  lemma PieceStep(p: string, rest: string, pat: string, rep: string)
    requires pat != [] && Inert(p, pat)
    ensures ReplaceAll(p + rest, pat, rep) == (if p == pat then rep else p) + ReplaceAll(rest, pat, rep)
  {
    if p == pat {
      ReplaceMeets(pat, rest, rep);
    } else {
      var s := p + rest;
      assert s[0] == p[0];
      assert |p| > 1 ==> s[1] == p[1];
      assert !(pat <= s);
      assert s[1..] == p[1..] + rest;
      ReplaceSkips(p[1..], rest, pat, rep);
      assert p == [p[0]] + p[1..];
    }
  }

  lemma EscapeStageDone(s: string)
    ensures forall i :: 0 <= i < |s| ==> EscapeStage(s, 5)[i] == EscapeChar(s[i])
  {
    forall i | 0 <= i < |s|
      ensures EscapeStage(s, 5)[i] == EscapeChar(s[i])
    {
      var c := s[i];
      assert EscapeOrder(c) == 5 ==> EscapeChar(c) == [c];
    }
  }

  lemma DecodeStageDone(s: string)
    ensures forall i :: 0 <= i < |s| ==> DecodeStage(s, 5)[i] == [s[i]]
  {
    forall i | 0 <= i < |s|
      ensures DecodeStage(s, 5)[i] == [s[i]]
    {
      var c := s[i];
      assert DecodeOrder(c) == 5 ==> EscapeChar(c) == [c];
    }
  }

  /** Step `k` of `escapeHtml` turns stage `k` into stage `k + 1`. */
  lemma EscapeStep(s: string, k: nat, c: char)
    requires k < 5 && EscapeOrder(c) == k
    ensures ReplaceAll(Concat(EscapeStage(s, k)), [c], EscapeChar(c)) == Concat(EscapeStage(s, k + 1))
  {
    var ps := EscapeStage(s, k);
    forall i | 0 <= i < |ps|
      ensures Inert(ps[i], [c]) && (if ps[i] == [c] then EscapeChar(c) else ps[i]) == EscapeStage(s, k + 1)[i]
    {
      EscapePiece(s[i], c, k);
    }
    ReplacePieces(ps, [c], EscapeChar(c));
    assert Swap(ps, [c], EscapeChar(c)) == EscapeStage(s, k + 1);
  }

  /** Step `k` of `UnescapeHtml` turns stage `k` into stage `k + 1`. */
  lemma DecodeStep(s: string, k: nat, c: char)
    requires k < 5 && DecodeOrder(c) == k
    ensures ReplaceAll(Concat(DecodeStage(s, k)), EscapeChar(c), [c]) == Concat(DecodeStage(s, k + 1))
  {
    var ps := DecodeStage(s, k);
    var pat := EscapeChar(c);
    forall i | 0 <= i < |ps|
      ensures Inert(ps[i], pat) && (if ps[i] == pat then [c] else ps[i]) == DecodeStage(s, k + 1)[i]
    {
      DecodePiece(s[i], c, k);
    }
    ReplacePieces(ps, pat, [c]);
    assert Swap(ps, pat, [c]) == DecodeStage(s, k + 1);
  }

  /** What step `k` of `escapeHtml` does to the piece of one character `d`. */
  lemma EscapePiece(d: char, c: char, k: nat)
    requires k < 5 && EscapeOrder(c) == k
    ensures var p := if EscapeOrder(d) < k then EscapeChar(d) else [d];
      && Inert(p, [c])
      && (if p == [c] then EscapeChar(c) else p) == (if EscapeOrder(d) < k + 1 then EscapeChar(d) else [d])
  {
  }

  /** What step `k` of `UnescapeHtml` does to the piece of one character `d`. */
  lemma DecodePiece(d: char, c: char, k: nat)
    requires k < 5 && DecodeOrder(c) == k
    ensures var p := if DecodeOrder(d) < k then [d] else EscapeChar(d);
      && Inert(p, EscapeChar(c))
      && (if p == EscapeChar(c) then [c] else p) == (if DecodeOrder(d) < k + 1 then [d] else EscapeChar(d))
  {
  }

  // ---------------------------------------------------------------------
  // Properties

  /** The chain of five replacements escapes each character on its own: `&`
      goes first, so no entity written by a later step is escaped again. */
  lemma EscapeHtmlIsPerCharacter(text: string)
    ensures EscapeHtml(text) == Escaped(text)
  {
    ConcatOfChars(text, EscapeStage(text, 0));
    var amp := ReplaceAll(text, "&", "&amp;");
    assert amp == Concat(EscapeStage(text, 1)) by { EscapeStep(text, 0, '&'); }
    var lt := ReplaceAll(amp, "<", "&lt;");
    assert lt == Concat(EscapeStage(text, 2)) by { EscapeStep(text, 1, '<'); }
    var gt := ReplaceAll(lt, ">", "&gt;");
    assert gt == Concat(EscapeStage(text, 3)) by { EscapeStep(text, 2, '>'); }
    var quot := ReplaceAll(gt, "\"", "&quot;");
    assert quot == Concat(EscapeStage(text, 4)) by { EscapeStep(text, 3, '"'); }
    var apos := ReplaceAll(quot, "'", "&#039;");
    assert apos == Concat(EscapeStage(text, 5)) by { EscapeStep(text, 4, '\''); }
    EscapeStageDone(text);
    ConcatOfEscapes(text, EscapeStage(text, 5));
  }

  /** Decoding the five entities, `&amp;` last, gives back the original text. */
  lemma UnescapeEscapeHtml(text: string)
    ensures UnescapeHtml(EscapeHtml(text)) == text
  {
    EscapeHtmlIsPerCharacter(text);
    ConcatOfEscapes(text, DecodeStage(text, 0));
    DecodeChain(text);
    DecodeStageDone(text);
    ConcatOfChars(text, DecodeStage(text, 5));
  }

  /** The five decoding steps, one stage each. */
  lemma DecodeChain(text: string)
    ensures UnescapeHtml(Concat(DecodeStage(text, 0))) == Concat(DecodeStage(text, 5))
  {
    var html := Concat(DecodeStage(text, 0));
    var lt := ReplaceAll(html, "&lt;", "<");
    var gt := ReplaceAll(lt, "&gt;", ">");
    assert gt == Concat(DecodeStage(text, 2)) by { DecodeFirstTwo(text); }
    DecodeLastThree(text);
  }

  lemma DecodeFirstTwo(text: string)
    ensures ReplaceAll(ReplaceAll(Concat(DecodeStage(text, 0)), "&lt;", "<"), "&gt;", ">") == Concat(DecodeStage(text, 2))
  {
    DecodeStep(text, 0, '<');
    DecodeStep(text, 1, '>');
  }

  lemma DecodeLastThree(text: string)
    ensures ReplaceAll(ReplaceAll(ReplaceAll(Concat(DecodeStage(text, 2)), "&quot;", "\""), "&#039;", "'"), "&amp;", "&") ==
      Concat(DecodeStage(text, 5))
  {
    DecodeStep(text, 2, '"');
    DecodeStep(text, 3, '\'');
    DecodeStep(text, 4, '&');
  }

  /** Only `&`, `;`, `#`, letters and digits of the entities are added. */
  lemma {:induction false} EscapedHasNoMarkup(s: string)
    ensures forall i :: 0 <= i < |Escaped(s)| ==>
      Escaped(s)[i] != '<' && Escaped(s)[i] != '>' && Escaped(s)[i] != '"' && Escaped(s)[i] != '\''
  {
    if s != [] {
      EscapedHasNoMarkup(s[1..]);
    }
  }

  /** The output of `escapeHtml` contains none of `<`, `>`, `"`, `'`. */
  lemma EscapeHtmlHasNoMarkup(text: string)
    ensures forall i :: 0 <= i < |EscapeHtml(text)| ==>
      EscapeHtml(text)[i] !in {'<', '>', '"', '\''}
  {
    EscapeHtmlIsPerCharacter(text);
    EscapedHasNoMarkup(text);
  }

  predicate StartsEntity(s: string) {
    exists k :: 0 <= k < |Entities| && Entities[k] <= s
  }

  lemma {:induction false} EscapedAmpersands(s: string)
    ensures forall i :: 0 <= i < |Escaped(s)| && Escaped(s)[i] == '&' ==> StartsEntity(Escaped(s)[i..])
  {
    if s != [] {
      var head, tail := EscapeChar(s[0]), Escaped(s[1..]);
      EscapedAmpersands(s[1..]);
      forall i | 0 <= i < |head + tail| && (head + tail)[i] == '&'
        ensures StartsEntity((head + tail)[i..])
      {
        if i < |head| {
          assert i == 0;
          assert head in Entities;
          var k :| 0 <= k < |Entities| && Entities[k] == head;
          assert Entities[k] <= (head + tail)[i..];
        } else {
          assert (head + tail)[i..] == tail[i - |head|..];
          assert tail[i - |head|] == '&';
        }
      }
    }
  }

  /** Every `&` of the output begins one of the five entities. */
  lemma EscapeHtmlAmpersandsBeginEntities(text: string)
    ensures forall i :: 0 <= i < |EscapeHtml(text)| && EscapeHtml(text)[i] == '&' ==>
      StartsEntity(EscapeHtml(text)[i..])
  {
    EscapeHtmlIsPerCharacter(text);
    EscapedAmpersands(text);
  }

  lemma {:induction false} EscapedLength(s: string)
    ensures |Escaped(s)| >= |s|
    ensures (forall i :: 0 <= i < |s| ==> !IsSpecial(s[i])) ==> Escaped(s) == s
  {
    if s != [] {
      EscapedLength(s[1..]);
    }
  }

  /** Escaping never shortens a text, leaves a text without special
      characters as it is, and maps the empty text to itself. */
  lemma EscapeHtmlLength(text: string)
    ensures |EscapeHtml(text)| >= |text|
    ensures (forall i :: 0 <= i < |text| ==> !IsSpecial(text[i])) ==> EscapeHtml(text) == text
    ensures EscapeHtml("") == ""
  {
    EscapeHtmlIsPerCharacter(text);
    EscapedLength(text);
  }
}
