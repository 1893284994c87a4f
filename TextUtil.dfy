/**
 * Character classes and the string operations that the parser builds from Python's
 * `str.lower`, `str.strip`, the `in` operator on strings and regular-expression
 * substitutions over whitespace runs.
 *
 * Whitespace is Python's ASCII whitespace and lowercasing maps only 'A'..'Z'; Python's
 * `\s`, `strip()` and `lower()` also cover non-ASCII characters.
 */
module TextUtil {

  /**
   * Python's whitespace (`str.isspace`, used by `\s` and `strip()` on `str`) within ASCII:
   * tab, line feed, vertical tab, form feed, carriage return, the four separators U+1C to
   * U+1F, and space.
   */
  predicate IsWs(c: char) {
    || c == ' ' || c == '\t' || c == '\n' || c == '\r' || c == '\U{B}' || c == '\U{C}'
    || c == '\U{1C}' || c == '\U{1D}' || c == '\U{1E}' || c == '\U{1F}'
  }

  /** The class `[ \t]` of the space-squeezing substitution. */
  predicate IsBlank(c: char) {
    c == ' ' || c == '\t'
  }

  /** The two classes whose runs the source collapses to one space. */
  datatype CharClass = Whitespace | Blank

  predicate InClass(c: char, k: CharClass) {
    match k
    case Whitespace => IsWs(c)
    case Blank => IsBlank(c)
  }

  predicate AllWs(s: string) {
    forall i :: 0 <= i < |s| ==> IsWs(s[i])
  }

  // ---------------------------------------------------------------------------
  // Lowercasing and substring search

  function LowerChar(c: char): char {
    if 'A' <= c <= 'Z' then (c as int + 32) as char else c
  }

  function Lower(s: string): (r: string)
    ensures |r| == |s|
    ensures forall i :: 0 <= i < |s| ==> r[i] == LowerChar(s[i])
  {
    seq(|s|, i requires 0 <= i < |s| => LowerChar(s[i]))
  }

  predicate StartsWith(s: string, prefix: string) {
    |prefix| <= |s| && s[..|prefix|] == prefix
  }

  /** Python's `sub in s`: the empty string is contained in every string. */
  predicate Contains(s: string, sub: string)
    decreases |s|
  {
    StartsWith(s, sub) || (s != [] && Contains(s[1..], sub))
  }

  lemma {:induction false} ContainsAt(s: string, sub: string, i: nat)
    requires i + |sub| <= |s| && s[i..i + |sub|] == sub
    ensures Contains(s, sub)
  {
    if i > 0 {
      assert s[1..][i - 1..i - 1 + |sub|] == s[i..i + |sub|];
      ContainsAt(s[1..], sub, i - 1);
    }
  }

  lemma {:induction false} ContainsWitness(s: string, sub: string) returns (i: nat)
    requires Contains(s, sub)
    ensures i + |sub| <= |s| && s[i..i + |sub|] == sub
  {
    if StartsWith(s, sub) {
      i := 0;
    } else {
      var j := ContainsWitness(s[1..], sub);
      assert s[1..][j..j + |sub|] == s[j + 1..j + 1 + |sub|];
      i := j + 1;
    }
  }

  // ---------------------------------------------------------------------------
  // Counting and filtering

  function CountNl(s: string): nat {
    if s == [] then 0 else (if s[0] == '\n' then 1 else 0) + CountNl(s[1..])
  }

  lemma {:induction false} CountNlConcat(a: string, b: string)
    ensures CountNl(a + b) == CountNl(a) + CountNl(b)
  {
    if a != [] {
      assert (a + b)[1..] == a[1..] + b;
      CountNlConcat(a[1..], b);
    } else {
      assert a + b == b;
    }
  }

  /** The characters of `s` that are not whitespace, in order: the text's "words". */
  function NonWs(s: string): string {
    if s == [] then [] else (if IsWs(s[0]) then [] else [s[0]]) + NonWs(s[1..])
  }

  lemma {:induction false} NonWsConcat(a: string, b: string)
    ensures NonWs(a + b) == NonWs(a) + NonWs(b)
  {
    if a != [] {
      assert (a + b)[1..] == a[1..] + b;
      NonWsConcat(a[1..], b);
    } else {
      assert a + b == b;
    }
  }

  lemma {:induction false} NonWsOfAllWs(s: string)
    requires AllWs(s)
    ensures NonWs(s) == []
  {
    if s != [] {
      NonWsOfAllWs(s[1..]);
    }
  }

  // ---------------------------------------------------------------------------
  // Runs of a character class

  /** Drops the leading run of class-`k` characters (`lstrip` when `k` is whitespace). */
  function SkipRun(s: string, k: CharClass): (r: string)
    ensures |r| <= |s| && r == s[|s| - |r|..]
    ensures forall i :: 0 <= i < |s| - |r| ==> InClass(s[i], k)
    ensures r == [] || !InClass(r[0], k)
  {
    if s != [] && InClass(s[0], k) then SkipRun(s[1..], k) else s
  }

  /** Drops the trailing run of whitespace (`rstrip`). */
  function StripRight(s: string): (r: string)
    ensures |r| <= |s| && r == s[..|r|]
    ensures forall i :: |r| <= i < |s| ==> IsWs(s[i])
    ensures r == [] || !IsWs(r[|r| - 1])
  {
    if s != [] && IsWs(s[|s| - 1]) then StripRight(s[..|s| - 1]) else s
  }

  /** Python's `str.strip()`: no whitespace left at either end, and no word lost. */
  function Strip(s: string): (r: string)
    ensures r == [] || (!IsWs(r[0]) && !IsWs(r[|r| - 1]))
    ensures NonWs(r) == NonWs(s)
  {
    SkipRunKeepsWords(s, Whitespace);
    StripRightKeepsWords(SkipRun(s, Whitespace));
    StripRight(SkipRun(s, Whitespace))
  }

  lemma {:induction false} SkipRunKeepsWords(s: string, k: CharClass)
    ensures NonWs(SkipRun(s, k)) == NonWs(s)
  {
    if s != [] && InClass(s[0], k) {
      SkipRunKeepsWords(s[1..], k);
    }
  }

  lemma {:induction false} StripRightKeepsWords(s: string)
    ensures NonWs(StripRight(s)) == NonWs(s)
    decreases |s|
  {
    if s != [] && IsWs(s[|s| - 1]) {
      var init := s[..|s| - 1];
      StripRightKeepsWords(init);
      assert s == init + [s[|s| - 1]];
      NonWsConcat(init, [s[|s| - 1]]);
    }
  }

  /**
   * `re.sub(pattern, ' ', s)` where `pattern` matches a maximal run of class-`k`
   * characters (`\s+` or `[ \t]+`): every run becomes one space.
   */
  function CollapseRuns(s: string, k: CharClass): (r: string)
    requires InClass(' ', k)
    ensures s != [] ==> r != [] && r[0] == (if InClass(s[0], k) then ' ' else s[0])
    ensures forall i :: 0 <= i < |r| && InClass(r[i], k) ==> r[i] == ' '
    ensures forall i :: 0 <= i < |r| - 1 ==> !(InClass(r[i], k) && InClass(r[i + 1], k))
    decreases |s|
  {
    if s == [] then []
    else if InClass(s[0], k) then [' '] + CollapseRuns(SkipRun(s[1..], k), k)
    else [s[0]] + CollapseRuns(s[1..], k)
  }

  lemma {:induction false} CollapseRunsKeepsWords(s: string, k: CharClass)
    requires InClass(' ', k)
    ensures NonWs(CollapseRuns(s, k)) == NonWs(s)
    decreases |s|
  {
    if s == [] {
    } else if InClass(s[0], k) {
      var t := s[1..];
      var rest := SkipRun(t, k);
      SkipRunKeepsWords(t, k);
      CollapseRunsKeepsWords(rest, k);
      NonWsConcat([' '], CollapseRuns(rest, k));
      assert NonWs(s) == NonWs(t);
    } else {
      CollapseRunsKeepsWords(s[1..], k);
      NonWsConcat([s[0]], CollapseRuns(s[1..], k));
    }
  }

  /** No two adjacent characters of `s` are both of class `k`. */
  predicate NoAdjacentIn(s: string, k: CharClass) {
    forall i :: 0 <= i < |s| - 1 ==> !(InClass(s[i], k) && InClass(s[i + 1], k))
  }

  /** `Strip` returns a contiguous piece of its input. */
  lemma StripIsSlice(s: string) returns (off: nat)
    ensures off + |Strip(s)| <= |s|
    ensures forall i :: 0 <= i < |Strip(s)| ==> Strip(s)[i] == s[off + i]
  {
    var l := SkipRun(s, Whitespace);
    off := |s| - |l|;
    assert l == s[off..];
    assert StripRight(l) == l[..|StripRight(l)|];
  }

  lemma StripKeepsNoAdjacent(s: string, k: CharClass)
    requires NoAdjacentIn(s, k)
    ensures NoAdjacentIn(Strip(s), k)
  {
    var off := StripIsSlice(s);
    var r := Strip(s);
    forall i | 0 <= i < |r| - 1 ensures !(InClass(r[i], k) && InClass(r[i + 1], k)) {
      assert r[i] == s[off + i] && r[i + 1] == s[off + i + 1];
    }
  }

  lemma StripKeepsSpacesOnly(s: string, k: CharClass)
    requires forall i :: 0 <= i < |s| && InClass(s[i], k) ==> s[i] == ' '
    ensures forall i :: 0 <= i < |Strip(s)| && InClass(Strip(s)[i], k) ==> Strip(s)[i] == ' '
  {
    var off := StripIsSlice(s);
  }

  /** Text with no whitespace at either end is its own strip. */
  lemma StripFixpoint(s: string)
    requires s == [] || (!IsWs(s[0]) && !IsWs(s[|s| - 1]))
    ensures Strip(s) == s
  {
    assert SkipRun(s, Whitespace) == s;
  }

  /** Text whose class-`k` characters are single spaces already has its runs collapsed. */
  lemma {:induction false} CollapseRunsFixpoint(s: string, k: CharClass)
    requires InClass(' ', k)
    requires forall i :: 0 <= i < |s| && InClass(s[i], k) ==> s[i] == ' '
    requires NoAdjacentIn(s, k)
    ensures CollapseRuns(s, k) == s
    decreases |s|
  {
    if s != [] {
      if InClass(s[0], k) {
        assert s[1..] == [] || !InClass(s[1..][0], k);
        assert SkipRun(s[1..], k) == s[1..];
      }
      CollapseRunsFixpoint(s[1..], k);
      assert s == [s[0]] + s[1..];
    }
  }

  /**
   * `re.sub(r'\s+', ' ', s).strip()`: no whitespace at either end, every remaining
   * whitespace character is a single space between two words, and no word is lost.
   */
  function CollapseWhitespace(s: string): (r: string)
    ensures r == [] || (!IsWs(r[0]) && !IsWs(r[|r| - 1]))
    ensures forall i :: 0 <= i < |r| && IsWs(r[i]) ==> r[i] == ' '
    ensures NoAdjacentIn(r, Whitespace)
    ensures NonWs(r) == NonWs(s)
  {
    var runs := CollapseRuns(s, Whitespace);
    CollapseRunsKeepsWords(s, Whitespace);
    StripKeepsNoAdjacent(runs, Whitespace);
    StripKeepsSpacesOnly(runs, Whitespace);
    WsSpacesOnly(Strip(runs));
    Strip(runs)
  }

  lemma WsSpacesOnly(s: string)
    requires forall i :: 0 <= i < |s| && InClass(s[i], Whitespace) ==> s[i] == ' '
    ensures forall i :: 0 <= i < |s| && IsWs(s[i]) ==> s[i] == ' '
  {
    forall i | 0 <= i < |s| && IsWs(s[i]) ensures s[i] == ' ' {
      assert InClass(s[i], Whitespace);
    }
  }

  /** Collapsing whitespace a second time changes nothing. */
  lemma CollapseWhitespaceIdempotent(s: string)
    ensures CollapseWhitespace(CollapseWhitespace(s)) == CollapseWhitespace(s)
  {
    var r := CollapseWhitespace(s);
    CollapseRunsFixpoint(r, Whitespace);
    StripFixpoint(r);
  }

  // ---------------------------------------------------------------------------
  // Words and gaps

  /**
   * A string read as its maximal runs for a character class: a `Word` is a maximal run of
   * characters outside the class, a `Gap` a maximal run inside it, recorded by the number
   * of line feeds it holds.
   */
  datatype Tok = Word(w: string) | Gap(nl: nat)

  function NlOf(c: char): nat {
    if c == '\n' then 1 else 0
  }

  /** One class character of `nl` line feeds in front of `t`, joining a leading gap. */
  function PushGap(nl: nat, t: seq<Tok>): (r: seq<Tok>)
    ensures r != [] && r[0].Gap?
  {
    if t != [] && t[0].Gap? then [Gap(nl + t[0].nl)] + t[1..] else [Gap(nl)] + t
  }

  /** One run in front of `t`, joining a leading run of the same kind. */
  function PushTok(x: Tok, t: seq<Tok>): (r: seq<Tok>)
    ensures r != [] && r[0].Gap? == x.Gap?
  {
    if x.Gap? then PushGap(x.nl, t)
    else if t != [] && t[0].Word? then [Word(x.w + t[0].w)] + t[1..]
    else [x] + t
  }

  /** The run a single character forms on its own. */
  function CharTok(c: char, k: CharClass): Tok {
    if InClass(c, k) then Gap(NlOf(c)) else Word([c])
  }

  /** One character in front of `t`: it opens or joins a gap or a word as its class says. */
  function Push(c: char, k: CharClass, t: seq<Tok>): (r: seq<Tok>)
    ensures r != [] && r[0].Gap? == InClass(c, k)
  {
    PushTok(CharTok(c, k), t)
  }

  /** The maximal runs of `s` for class `k`, in order. */
  function Tokens(s: string, k: CharClass): (r: seq<Tok>)
    ensures s == [] <==> r == []
    ensures s != [] ==> r[0].Gap? == InClass(s[0], k)
    decreases |s|
  {
    if s == [] then [] else Push(s[0], k, Tokens(s[1..], k))
  }

  /** A run in front leaves the last run's kind alone. */
  lemma PushTokLast(x: Tok, t: seq<Tok>)
    requires t != []
    ensures PushTok(x, t)[|PushTok(x, t)| - 1].Gap? == t[|t| - 1].Gap?
  {
    if |t| >= 2 {
      PushTokConcat(x, [t[0]], t[1..]);
      assert t == [t[0]] + t[1..];
    }
  }

  /** The last run is a gap exactly when the last character is of the class. */
  lemma {:induction false} TokensLast(s: string, k: CharClass)
    requires s != []
    ensures Tokens(s, k)[|Tokens(s, k)| - 1].Gap? == InClass(s[|s| - 1], k)
    decreases |s|
  {
    if |s| >= 2 {
      TokensLast(s[1..], k);
      PushTokLast(CharTok(s[0], k), Tokens(s[1..], k));
    }
  }

  lemma TokensCons(c: char, t: string, k: CharClass)
    ensures Tokens([c] + t, k) == Push(c, k, Tokens(t, k))
  {
    assert ([c] + t)[1..] == t;
  }

  /** Neighbouring runs are of different kinds; words are non-empty and hold no class character. */
  predicate Alternating(t: seq<Tok>, k: CharClass) {
    && (forall i :: 0 <= i < |t| - 1 ==> t[i].Gap? != t[i + 1].Gap?)
    && (forall i :: 0 <= i < |t| && t[i].Word? ==>
          t[i].w != [] && forall j :: 0 <= j < |t[i].w| ==> !InClass(t[i].w[j], k))
  }

  /** A word with one more character in front keeps its shape. */
  lemma ConsWordShape(c: char, w: string, k: CharClass)
    requires !InClass(c, k)
    requires forall j :: 0 <= j < |w| ==> !InClass(w[j], k)
    ensures forall j :: 0 <= j < |[c] + w| ==> !InClass(([c] + w)[j], k)
  {
    assert forall j :: 1 <= j < |[c] + w| ==> ([c] + w)[j] == w[j - 1];
  }

  lemma PushAlternates(c: char, k: CharClass, t: seq<Tok>)
    requires Alternating(t, k)
    ensures Alternating(Push(c, k, t), k)
  {
    var r := Push(c, k, t);
    if InClass(c, k) {
      if t != [] && t[0].Gap? {
        assert forall i :: 1 <= i < |r| ==> r[i] == t[i];
      } else {
        assert forall i :: 1 <= i < |r| ==> r[i] == t[i - 1];
      }
    } else if t != [] && t[0].Word? {
      ConsWordShape(c, t[0].w, k);
      assert forall i :: 1 <= i < |r| ==> r[i] == t[i];
    } else {
      assert forall i :: 1 <= i < |r| ==> r[i] == t[i - 1];
    }
  }

  /** The runs are maximal: no two neighbours could be merged. */
  lemma {:induction false} TokensAlternate(s: string, k: CharClass)
    ensures Alternating(Tokens(s, k), k)
    decreases |s|
  {
    if s != [] {
      TokensAlternate(s[1..], k);
      PushAlternates(s[0], k, Tokens(s[1..], k));
    }
  }

  /** A non-empty run of class characters followed by text that does not start with one. */
  lemma {:induction false} TokensGapRun(g: string, t: string, k: CharClass)
    requires g != [] && forall i :: 0 <= i < |g| ==> InClass(g[i], k)
    requires t == [] || !InClass(t[0], k)
    ensures Tokens(g + t, k) == [Gap(CountNl(g))] + Tokens(t, k)
    decreases |g|
  {
    var c := g[0];
    assert InClass(c, k);
    assert g + t == [c] + (g[1..] + t);
    TokensCons(c, g[1..] + t, k);
    assert CountNl(g) == NlOf(c) + CountNl(g[1..]);
    if |g| > 1 {
      assert forall i :: 0 <= i < |g[1..]| ==> InClass(g[1..][i], k);
      TokensGapRun(g[1..], t, k);
      var rest := Tokens(t, k);
      assert Tokens(g[1..] + t, k) == [Gap(CountNl(g[1..]))] + rest;
      assert PushGap(NlOf(c), [Gap(CountNl(g[1..]))] + rest) == [Gap(CountNl(g))] + rest;
    } else {
      assert g[1..] + t == t;
      assert CountNl(g[1..]) == 0;
    }
  }

  /** A non-empty word followed by text that does not continue it. */
  lemma {:induction false} TokensWordRun(w: string, t: string, k: CharClass)
    requires w != [] && forall i :: 0 <= i < |w| ==> !InClass(w[i], k)
    requires t == [] || InClass(t[0], k)
    ensures Tokens(w + t, k) == [Word(w)] + Tokens(t, k)
    decreases |w|
  {
    TokensCons(w[0], w[1..] + t, k);
    assert w + t == [w[0]] + (w[1..] + t);
    if |w| > 1 {
      TokensWordRun(w[1..], t, k);
      assert [w[0]] + w[1..] == w;
    } else {
      assert w[1..] + t == t;
    }
  }

  /** A gap keeps at most `cap` of its line feeds; a word is untouched. */
  function Cap(x: Tok, cap: nat): Tok {
    if x.Word? then x else Gap(if x.nl <= cap then x.nl else cap)
  }

  /** Every gap keeps at most `cap` of its line feeds; words are untouched. */
  function CapGaps(t: seq<Tok>, cap: nat): (r: seq<Tok>)
    ensures |r| == |t|
  {
    seq(|t|, i requires 0 <= i < |t| => Cap(t[i], cap))
  }

  function DropLeadGap(t: seq<Tok>): seq<Tok> {
    if t != [] && t[0].Gap? then t[1..] else t
  }

  function DropTrailGap(t: seq<Tok>): seq<Tok> {
    if t != [] && t[|t| - 1].Gap? then t[..|t| - 1] else t
  }

  /** Drops a gap at either end: the runs of the stripped text. */
  function TrimGaps(t: seq<Tok>): (r: seq<Tok>)
    ensures |r| <= |t|
    ensures t == [] || (t[0].Word? && t[|t| - 1].Word?) ==> r == t
  {
    DropTrailGap(DropLeadGap(t))
  }

  /** The texts of the words, in order. */
  function WordsOf(t: seq<Tok>): (r: seq<string>)
    ensures |r| <= |t|
  {
    if t == [] then [] else (if t[0].Word? then [t[0].w] else []) + WordsOf(t[1..])
  }

  /** The words of `s`: its maximal runs of non-whitespace characters, in order. */
  function Words(s: string): seq<string> {
    WordsOf(Tokens(s, Whitespace))
  }

  // Moving runs past the substitutions

  lemma PushGapMerge(a: nat, b: nat, t: seq<Tok>)
    ensures PushGap(a, PushGap(b, t)) == PushGap(a + b, t)
  {
  }

  /** Capping commutes with a character in front that adds no line feed, or with a cap of zero. */
  lemma CapPushGap(n: nat, t: seq<Tok>, cap: nat)
    requires n == 0 || cap == 0
    ensures CapGaps(PushGap(n, t), cap) == PushGap(0, CapGaps(t, cap))
  {
    var l := PushGap(n, t);
    var r := PushGap(0, CapGaps(t, cap));
    if t != [] && t[0].Gap? {
      assert forall i :: 1 <= i < |l| ==> l[i] == t[i];
      assert forall i :: 1 <= i < |r| ==> r[i] == CapGaps(t, cap)[i];
    } else {
      assert forall i :: 1 <= i < |l| ==> l[i] == t[i - 1];
      assert forall i :: 1 <= i < |r| ==> r[i] == CapGaps(t, cap)[i - 1];
    }
  }

  lemma CapPushWord(c: char, k: CharClass, t: seq<Tok>, cap: nat)
    requires !InClass(c, k)
    ensures CapGaps(Push(c, k, t), cap) == Push(c, k, CapGaps(t, cap))
  {
    var l := Push(c, k, t);
    var r := Push(c, k, CapGaps(t, cap));
    if t != [] && t[0].Word? {
      assert forall i :: 1 <= i < |l| ==> l[i] == t[i];
      assert forall i :: 1 <= i < |r| ==> r[i] == CapGaps(t, cap)[i];
    } else {
      assert forall i :: 1 <= i < |l| ==> l[i] == t[i - 1];
      assert forall i :: 1 <= i < |r| ==> r[i] == CapGaps(t, cap)[i - 1];
    }
  }

  lemma {:induction false} SkipRunZero(t: string, k: CharClass)
    ensures PushGap(0, CapGaps(Tokens(SkipRun(t, k), k), 0)) == PushGap(0, CapGaps(Tokens(t, k), 0))
    decreases |t|
  {
    if t != [] && InClass(t[0], k) {
      SkipRunZero(t[1..], k);
      CapPushGap(NlOf(t[0]), Tokens(t[1..], k), 0);
      PushGapMerge(0, 0, CapGaps(Tokens(t[1..], k), 0));
    }
  }

  /**
   * Collapsing the runs of class `k` keeps every word and every boundary between a word and
   * a run: each maximal run is replaced by one run (the single space of the postcondition).
   */
  lemma {:induction false} CollapseRunsTokens(s: string, k: CharClass)
    requires InClass(' ', k)
    ensures Tokens(CollapseRuns(s, k), k) == CapGaps(Tokens(s, k), 0)
    decreases |s|
  {
    if s != [] {
      if InClass(s[0], k) {
        var rest := SkipRun(s[1..], k);
        CollapseRunsTokens(rest, k);
        TokensCons(' ', CollapseRuns(rest, k), k);
        SkipRunZero(s[1..], k);
        CapPushGap(NlOf(s[0]), Tokens(s[1..], k), 0);
      } else {
        CollapseRunsTokens(s[1..], k);
        TokensCons(s[0], CollapseRuns(s[1..], k), k);
        CapPushWord(s[0], k, Tokens(s[1..], k), 0);
      }
    }
  }

  lemma {:induction false} SkipBlanksTokens(t: string)
    ensures PushGap(0, Tokens(SkipRun(t, Blank), Whitespace)) == PushGap(0, Tokens(t, Whitespace))
    decreases |t|
  {
    if t != [] && IsBlank(t[0]) {
      SkipBlanksTokens(t[1..]);
      PushGapMerge(0, 0, Tokens(t[1..], Whitespace));
    }
  }

  /** Squeezing runs of spaces and tabs leaves every word and every gap's line feeds as they were. */
  lemma {:induction false} CollapseBlanksTokens(s: string)
    ensures Tokens(CollapseRuns(s, Blank), Whitespace) == Tokens(s, Whitespace)
    decreases |s|
  {
    if s != [] {
      if IsBlank(s[0]) {
        var rest := SkipRun(s[1..], Blank);
        CollapseBlanksTokens(rest);
        TokensCons(' ', CollapseRuns(rest, Blank), Whitespace);
        SkipBlanksTokens(s[1..]);
      } else {
        CollapseBlanksTokens(s[1..]);
        TokensCons(s[0], CollapseRuns(s[1..], Blank), Whitespace);
      }
    }
  }

  /** Squeezing runs of spaces and tabs adds and removes no line feed. */
  lemma {:induction false} CollapseBlanksKeepsNl(s: string)
    ensures CountNl(CollapseRuns(s, Blank)) == CountNl(s)
    decreases |s|
  {
    if s != [] {
      if IsBlank(s[0]) {
        var rest := SkipRun(s[1..], Blank);
        CollapseBlanksKeepsNl(rest);
        SkipBlanksKeepNl(s[1..]);
        assert ([' '] + CollapseRuns(rest, Blank))[1..] == CollapseRuns(rest, Blank);
      } else {
        CollapseBlanksKeepsNl(s[1..]);
        assert ([s[0]] + CollapseRuns(s[1..], Blank))[1..] == CollapseRuns(s[1..], Blank);
      }
    }
  }

  lemma {:induction false} SkipBlanksKeepNl(t: string)
    ensures CountNl(SkipRun(t, Blank)) == CountNl(t)
    decreases |t|
  {
    if t != [] && IsBlank(t[0]) {
      SkipBlanksKeepNl(t[1..]);
    }
  }

  /** Stripping the left end drops a leading gap and nothing else. */
  lemma {:induction false} SkipRunTokens(s: string)
    ensures Tokens(SkipRun(s, Whitespace), Whitespace) == DropLeadGap(Tokens(s, Whitespace))
    decreases |s|
  {
    if s != [] && IsWs(s[0]) {
      SkipRunTokens(s[1..]);
    }
  }

  /** One class character of `nl` line feeds after `t`, joining a trailing gap. */
  function AppendGap(t: seq<Tok>, nl: nat): (r: seq<Tok>)
    ensures r != [] && r[|r| - 1].Gap?
    ensures t != [] ==> r[0].Gap? == t[0].Gap?
  {
    if t != [] && t[|t| - 1].Gap? then t[..|t| - 1] + [Gap(t[|t| - 1].nl + nl)] else t + [Gap(nl)]
  }

  lemma PushTokConcat(x: Tok, u: seq<Tok>, m: seq<Tok>)
    requires u != []
    ensures PushTok(x, u + m) == PushTok(x, u) + m
  {
    var um := u + m;
    assert um[0] == u[0] && um[1..] == u[1..] + m;
    if x.Gap? && u[0].Gap? {
      assert PushTok(x, um) == [Gap(x.nl + u[0].nl)] + (u[1..] + m);
      assert PushTok(x, u) == [Gap(x.nl + u[0].nl)] + u[1..];
    } else if x.Word? && u[0].Word? {
      assert PushTok(x, um) == [Word(x.w + u[0].w)] + (u[1..] + m);
      assert PushTok(x, u) == [Word(x.w + u[0].w)] + u[1..];
    } else {
      assert PushTok(x, um) == [x] + (u + m);
      assert PushTok(x, u) == [x] + u;
    }
  }

  lemma AppendGapConcat(h: seq<Tok>, m: seq<Tok>, nl: nat)
    requires m != []
    ensures AppendGap(h + m, nl) == h + AppendGap(m, nl)
  {
    var hm := h + m;
    assert hm[|hm| - 1] == m[|m| - 1];
    assert hm[..|hm| - 1] == h + m[..|m| - 1];
  }

  lemma PushAppendOne(x: Tok, y: Tok, nl: nat)
    ensures PushTok(x, AppendGap([y], nl)) == AppendGap(PushTok(x, [y]), nl)
  {
  }

  /** Adding a run at the front and a class character at the back can be done in either order. */
  lemma PushAppendGap(x: Tok, t: seq<Tok>, nl: nat)
    ensures PushTok(x, AppendGap(t, nl)) == AppendGap(PushTok(x, t), nl)
  {
    if t == [] {
      assert AppendGap(t, nl) == [Gap(nl)];
    } else if |t| == 1 {
      PushAppendOne(x, t[0], nl);
      assert t == [t[0]];
    } else {
      var m := t[1..];
      assert t == [t[0]] + m;
      AppendGapConcat([t[0]], m, nl);
      PushTokConcat(x, [t[0]], AppendGap(m, nl));
      PushTokConcat(x, [t[0]], m);
      AppendGapConcat(PushTok(x, [t[0]]), m, nl);
    }
  }

  lemma {:induction false} TokensSnocGap(s: string, c: char, k: CharClass)
    requires InClass(c, k)
    ensures Tokens(s + [c], k) == AppendGap(Tokens(s, k), NlOf(c))
    decreases |s|
  {
    if s == [] {
      assert s + [c] == [c];
      TokensCons(c, [], k);
    } else {
      TokensSnocGap(s[1..], c, k);
      assert s + [c] == [s[0]] + (s[1..] + [c]);
      TokensCons(s[0], s[1..] + [c], k);
      PushAppendGap(CharTok(s[0], k), Tokens(s[1..], k), NlOf(c));
    }
  }

  lemma DropTrailAppend(t: seq<Tok>, nl: nat)
    ensures DropTrailGap(AppendGap(t, nl)) == DropTrailGap(t)
  {
    if t != [] && t[|t| - 1].Gap? {
      assert AppendGap(t, nl)[..|t| - 1] == t[..|t| - 1];
    } else {
      assert AppendGap(t, nl)[..|t|] == t;
    }
  }

  /** Stripping the right end drops a trailing gap and nothing else. */
  lemma {:induction false} StripRightTokens(s: string)
    ensures Tokens(StripRight(s), Whitespace) == DropTrailGap(Tokens(s, Whitespace))
    decreases |s|
  {
    if s != [] && IsWs(s[|s| - 1]) {
      var init := s[..|s| - 1];
      StripRightTokens(init);
      assert s == init + [s[|s| - 1]];
      assert StripRight(s) == StripRight(init);
      TokensSnocGap(init, s[|s| - 1], Whitespace);
      DropTrailAppend(Tokens(init, Whitespace), NlOf(s[|s| - 1]));
    } else if s != [] {
      TokensLast(s, Whitespace);
    }
  }

  /** `strip()` drops the gaps at both ends and keeps every word and every inner gap. */
  lemma StripTokens(s: string)
    ensures Tokens(Strip(s), Whitespace) == TrimGaps(Tokens(s, Whitespace))
  {
    SkipRunTokens(s);
    StripRightTokens(SkipRun(s, Whitespace));
  }

  lemma {:induction false} WordsOfSnoc(t: seq<Tok>, x: Tok)
    ensures WordsOf(t + [x]) == WordsOf(t) + (if x.Word? then [x.w] else [])
    decreases |t|
  {
    if t == [] {
      assert t + [x] == [x];
    } else {
      var tx := t + [x];
      assert tx[0] == t[0] && tx[1..] == t[1..] + [x];
      WordsOfSnoc(t[1..], x);
      var h := if t[0].Word? then [t[0].w] else [];
      assert WordsOf(tx) == h + WordsOf(t[1..] + [x]);
      assert WordsOf(t) == h + WordsOf(t[1..]);
    }
  }

  lemma {:induction false} WordsOfCap(t: seq<Tok>, cap: nat)
    ensures WordsOf(CapGaps(t, cap)) == WordsOf(t)
    decreases |t|
  {
    if t != [] {
      assert CapGaps(t, cap)[1..] == CapGaps(t[1..], cap);
      WordsOfCap(t[1..], cap);
    }
  }

  lemma WordsOfTrim(t: seq<Tok>)
    ensures WordsOf(TrimGaps(t)) == WordsOf(t)
  {
    var u := DropLeadGap(t);
    if u != [] && u[|u| - 1].Gap? {
      assert u == u[..|u| - 1] + [u[|u| - 1]];
      WordsOfSnoc(u[..|u| - 1], u[|u| - 1]);
    }
  }

  /**
   * `re.sub(r'\s+', ' ', s).strip()` keeps exactly the words of `s`, in order, with one
   * line-feed-free gap between neighbours and none at the ends.
   */
  lemma CollapseWhitespaceTokens(s: string)
    ensures Tokens(CollapseWhitespace(s), Whitespace) == TrimGaps(CapGaps(Tokens(s, Whitespace), 0))
    ensures Words(CollapseWhitespace(s)) == Words(s)
  {
    CollapseRunsTokens(s, Whitespace);
    StripTokens(CollapseRuns(s, Whitespace));
    WordsOfTrim(CapGaps(Tokens(s, Whitespace), 0));
    WordsOfCap(Tokens(s, Whitespace), 0);
  }
}
