/**
 * The HTML-to-text converter of src/email_parser.py: a tag-event state machine with a
 * single "current tag" slot (not a stack) that collects text fragments, and the
 * clean-up `get_text` applies to their concatenation.
 *
 * The library tokenizer (`html.parser`) is not modelled: the converter is fed the
 * sequence of events the tokenizer would report.
 */
module HtmlText {
  import opened Wrappers
  import opened TextUtil

  /** One event reported by the tokenizer: `handle_starttag`, `handle_endtag`, `handle_data`. */
  datatype Token = Start(name: string) | End(name: string) | Data(text: string)

  /** Tags whose text is dropped while one of them is the current tag. */
  const SkipTags: set<string> := {"script", "style", "head", "meta"}

  /** Tags whose end event emits a line break. */
  const LineBlockTags: set<string> := {"p", "div", "li"}

  predicate Skipping(current: Option<string>) {
    current.Some? && current.value in SkipTags
  }

  // ---------------------------------------------------------------------------
  // The event machine as functions: the state after a prefix of events, and what
  // each event adds to the fragment list.

  function NextTag(current: Option<string>, t: Token): Option<string> {
    match t
    case Start(n) => Some(Lower(n))
    case End(_) => None
    case Data(_) => current
  }

  function Emit(current: Option<string>, t: Token): seq<string> {
    match t
    case Start(n) => if Lower(n) == "br" then ["\n"] else []
    case End(n) => if Lower(n) in LineBlockTags then ["\n"] else []
    case Data(s) => if Skipping(current) then [] else [s]
  }

  /** The current-tag slot after the events `toks`, starting from `init`. */
  function TagAfter(toks: seq<Token>, init: Option<string>): Option<string> {
    if toks == [] then init
    else NextTag(TagAfter(toks[..|toks| - 1], init), toks[|toks| - 1])
  }

  /** The fragments appended while handling the events `toks`, starting from `init`. */
  function Fragments(toks: seq<Token>, init: Option<string>): seq<string> {
    if toks == [] then []
    else
      var prefix := toks[..|toks| - 1];
      Fragments(prefix, init) + Emit(TagAfter(prefix, init), toks[|toks| - 1])
  }

  /** `''.join(fragments)`. */
  function Join(fragments: seq<string>): string {
    if fragments == [] then [] else Join(fragments[..|fragments| - 1]) + fragments[|fragments| - 1]
  }

  /** Handling one more event extends the fragments and moves the slot by that event. */
  lemma PrefixStep(toks: seq<Token>, i: int, init: Option<string>)
    requires 0 <= i < |toks|
    ensures Fragments(toks[..i + 1], init) == Fragments(toks[..i], init) + Emit(TagAfter(toks[..i], init), toks[i])
    ensures TagAfter(toks[..i + 1], init) == NextTag(TagAfter(toks[..i], init), toks[i])
  {
    assert toks[..i + 1][..i] == toks[..i];
  }

  /** Joining two fragment lists one after the other joins their texts in that order. */
  lemma {:induction false} JoinConcat(a: seq<string>, b: seq<string>)
    ensures Join(a + b) == Join(a) + Join(b)
    decreases |b|
  {
    if b == [] {
      assert a + b == a;
    } else {
      var init := b[..|b| - 1];
      assert (a + b)[..|a + b| - 1] == a + init;
      JoinConcat(a, init);
    }
  }

  /** After two runs of events the slot is where the second run, started from the first's slot, leaves it. */
  lemma {:induction false} TagAfterConcat(a: seq<Token>, b: seq<Token>, init: Option<string>)
    ensures TagAfter(a + b, init) == TagAfter(b, TagAfter(a, init))
    decreases |b|
  {
    if b == [] {
      assert a + b == a;
    } else {
      var front := b[..|b| - 1];
      assert (a + b)[..|a + b| - 1] == a + front;
      assert (a + b)[|a + b| - 1] == b[|b| - 1];
      TagAfterConcat(a, front, init);
    }
  }

  /**
   * Handling two runs of events one after the other: the second run starts from the slot
   * the first one leaves, and its fragments follow the first run's.
   */
  lemma {:induction false} FragmentsConcat(a: seq<Token>, b: seq<Token>, init: Option<string>)
    ensures Fragments(a + b, init) == Fragments(a, init) + Fragments(b, TagAfter(a, init))
    decreases |b|
  {
    if b == [] {
      assert a + b == a;
    } else {
      var front := b[..|b| - 1];
      var last := b[|b| - 1];
      var mid := TagAfter(a, init);
      assert (a + b)[..|a + b| - 1] == a + front;
      assert (a + b)[|a + b| - 1] == last;
      FragmentsConcat(a, front, init);
      TagAfterConcat(a, front, init);
      calc {
        Fragments(a + b, init);
        Fragments(a + front, init) + Emit(TagAfter(a + front, init), last);
        Fragments(a, init) + Fragments(front, mid) + Emit(TagAfter(front, mid), last);
        Fragments(a, init) + (Fragments(front, mid) + Emit(TagAfter(front, mid), last));
        Fragments(a, init) + Fragments(b, mid);
      }
    }
  }

  /**
   * The slot holds whatever the most recent tag event put there: the lowercased name of a
   * start tag, or nothing after an end tag, however many data events follow it.
   */
  lemma {:induction false} TagAfterLastEvent(toks: seq<Token>, init: Option<string>, j: nat)
    requires j < |toks| && !toks[j].Data?
    requires forall k :: j < k < |toks| ==> toks[k].Data?
    ensures TagAfter(toks, init) == if toks[j].Start? then Some(Lower(toks[j].name)) else None
    decreases |toks|
  {
    var prefix := toks[..|toks| - 1];
    if j < |toks| - 1 {
      TagAfterLastEvent(prefix, init, j);
    }
  }

  /** With no tag event at all, the slot keeps its initial value. */
  lemma {:induction false} TagAfterNoEvent(toks: seq<Token>, init: Option<string>)
    requires forall k :: 0 <= k < |toks| ==> toks[k].Data?
    ensures TagAfter(toks, init) == init
  {
    if toks != [] {
      TagAfterNoEvent(toks[..|toks| - 1], init);
    }
  }

  /** The most recent tag event in `toks` is the start of a skipped tag. */
  ghost predicate SkipTagOpen(toks: seq<Token>) {
    exists j :: 0 <= j < |toks| && toks[j].Start? && Lower(toks[j].name) in SkipTags &&
      forall k :: j < k < |toks| ==> toks[k].Data?
  }

  /** The slot holds a skipped tag exactly when the most recent tag event opened one. */
  lemma {:induction false} SkippingIffSkipTagOpen(toks: seq<Token>)
    ensures Skipping(TagAfter(toks, None)) <==> SkipTagOpen(toks)
  {
    if toks != [] {
      var n := |toks| - 1;
      var prefix := toks[..n];
      SkippingIffSkipTagOpen(prefix);
      match toks[n]
      case Start(_) =>
        LastEventDecides(toks);
      case End(_) =>
        LastEventDecides(toks);
      case Data(_) =>
        if SkipTagOpen(toks) {
          var j :| 0 <= j < |toks| && toks[j].Start? && Lower(toks[j].name) in SkipTags &&
            forall k :: j < k < |toks| ==> toks[k].Data?;
          assert j < n && prefix[j] == toks[j];
          assert forall k :: j < k < |prefix| ==> prefix[k].Data?;
        }
        if SkipTagOpen(prefix) {
          var j :| 0 <= j < |prefix| && prefix[j].Start? && Lower(prefix[j].name) in SkipTags &&
            forall k :: j < k < |prefix| ==> prefix[k].Data?;
          assert toks[j] == prefix[j];
          assert forall k :: j < k < |toks| ==> toks[k].Data?;
        }
    }
  }

  /** When the last event is a tag event, no earlier start tag can be the most recent one. */
  lemma LastEventDecides(toks: seq<Token>)
    requires toks != [] && !toks[|toks| - 1].Data?
    ensures SkipTagOpen(toks) <==> toks[|toks| - 1].Start? && Lower(toks[|toks| - 1].name) in SkipTags
  {
    var n := |toks| - 1;
    if SkipTagOpen(toks) {
      var j :| 0 <= j < |toks| && toks[j].Start? && Lower(toks[j].name) in SkipTags &&
        forall k :: j < k < |toks| ==> toks[k].Data?;
      if j < n {
        assert false;
      }
    }
  }

  /**
   * A data event adds its text exactly when the most recent tag event before it was not
   * the start of `script`, `style`, `head` or `meta`. Any end tag clears the slot, so text
   * after a nested end tag inside a skipped element is kept.
   */
  lemma DataKeptUnlessSkipTagOpen(toks: seq<Token>, d: string)
    ensures Fragments(toks + [Data(d)], None) ==
            Fragments(toks, None) + (if SkipTagOpen(toks) then [] else [d])
  {
    var all := toks + [Data(d)];
    assert all[..|all| - 1] == toks;
    SkippingIffSkipTagOpen(toks);
  }

  // ---------------------------------------------------------------------------
  // `get_text`: the clean-up of the joined fragments.

  /**
   * Scans `s` keeping `n`, the number of line feeds in the current whitespace run; fails
   * on a third one. `NlScan(s, 0)` says that no three line feeds in `s` are separated only
   * by whitespace, i.e. at most one blank line between blocks.
   */
  predicate NlScan(s: string, n: nat)
    decreases |s|
  {
    s == [] ||
    if s[0] == '\n' then n < 2 && NlScan(s[1..], n + 1)
    else if IsWs(s[0]) then NlScan(s[1..], n)
    else NlScan(s[1..], 0)
  }

  /** No two adjacent spaces or tabs. */
  predicate NoDoubleBlank(s: string) {
    NoAdjacentIn(s, Blank)
  }

  /** The part of `p` after its last line feed (all of `p` if it has none). */
  function AfterLastNewline(p: string): (r: string)
    ensures |r| <= |p| && r == p[|p| - |r|..]
    ensures CountNl(r) == 0
    ensures |r| < |p| ==> p[|p| - |r| - 1] == '\n'
  {
    if p == [] then []
    else if p[|p| - 1] == '\n' then []
    else
      var init := p[..|p| - 1];
      var r := AfterLastNewline(init) + [p[|p| - 1]];
      CountNlConcat(AfterLastNewline(init), [p[|p| - 1]]);
      r
  }

  /**
   * `re.sub(r'\n\s*\n\s*\n+', '\n\n', s)`. A match starts at the first line feed of a
   * maximal whitespace run and, the quantifiers being greedy, ends at the run's last line
   * feed; it exists only when the run holds at least three line feeds. Such a run keeps
   * what precedes its first line feed and what follows its last, with "\n\n" in between.
   */
  function CollapseBlankLines(s: string): (r: string)
    decreases |s|
  {
    if s == [] then []
    else if s[0] == '\n' then
      var rest := SkipRun(s, Whitespace);
      assert InClass(s[0], Whitespace);
      var run := s[..|s| - |rest|];
      KeptRun(run) + CollapseBlankLines(rest)
    else [s[0]] + CollapseBlankLines(s[1..])
  }

  /**
   * What becomes of one maximal whitespace run starting with a line feed: with three or
   * more line feeds, "\n\n" followed by what came after its last line feed.
   */
  function KeptRun(run: string): string {
    if CountNl(run) >= 3 then "\n\n" + AfterLastNewline(run) else run
  }

  /** A run stays a non-empty whitespace run and keeps its line feeds up to two. */
  lemma KeptRunShape(run: string)
    requires AllWs(run)
    ensures AllWs(KeptRun(run)) && CountNl(KeptRun(run)) <= 2
    ensures CountNl(KeptRun(run)) == (if CountNl(run) <= 2 then CountNl(run) else 2)
    ensures run != [] ==> KeptRun(run) != []
  {
    if CountNl(run) >= 3 {
      var a := AfterLastNewline(run);
      assert a == run[|run| - |a|..];
      assert AllWs(a) by {
        forall i | 0 <= i < |a| ensures IsWs(a[i]) {
          assert a[i] == run[|run| - |a| + i];
        }
      }
      CountNlConcat("\n\n", a);
      assert CountNl("\n\n") == 2;
    }
  }

  /** Python's `get_text` post-processing of the joined fragments. */
  function CleanText(raw: string): (r: string)
    ensures r == [] || (!IsWs(r[0]) && !IsWs(r[|r| - 1]))
    ensures NoDoubleBlank(r)
    ensures forall i :: 0 <= i < |r| && IsBlank(r[i]) ==> r[i] == ' '
    ensures NlScan(r, 0)
    ensures NonWs(r) == NonWs(raw)
  {
    var collapsed := CollapseBlankLines(raw);
    CollapseBlankLinesScan(raw);
    CollapseBlankLinesKeepsWords(raw);
    var squeezed := CollapseRuns(collapsed, Blank);
    CollapseRunsKeepsWords(collapsed, Blank);
    SqueezeKeepsScan(collapsed, 0);
    StripKeepsShape(squeezed);
    StripKeepsSpacesOnly(squeezed, Blank);
    Strip(squeezed)
  }

  /**
   * The clean-up keeps every word of the joined text, in order; the gap between two
   * neighbouring words keeps its line feeds up to two, and there is no gap at either end.
   */
  lemma CleanTextTokens(raw: string)
    ensures Tokens(CleanText(raw), Whitespace) == TrimGaps(CapGaps(Tokens(raw, Whitespace), 2))
  {
    var collapsed := CollapseBlankLines(raw);
    var squeezed := CollapseRuns(collapsed, Blank);
    assert CleanText(raw) == Strip(squeezed);
    CollapseBlankLinesTokens(raw);
    CollapseBlanksTokens(collapsed);
    StripTokens(squeezed);
  }

  /** The clean-up keeps exactly the words of the joined text, in order. */
  lemma CleanTextKeepsWords(raw: string)
    ensures Words(CleanText(raw)) == Words(raw)
  {
    CleanTextTokens(raw);
    WordsOfTrim(CapGaps(Tokens(raw, Whitespace), 2));
    WordsOfCap(Tokens(raw, Whitespace), 2);
  }

  /** Text holding at most two line feeds in all cannot hold a blank-line run. */
  lemma {:induction false} FewNewlinesScan(s: string, n: nat)
    requires n + CountNl(s) <= 2
    ensures NlScan(s, n)
    decreases |s|
  {
    if s != [] {
      FewNewlinesScan(s[1..], if s[0] == '\n' then n + 1 else if IsWs(s[0]) then n else 0);
    }
  }

  /**
   * Text that is already clean (trimmed, no tabs, no double spaces, at most one blank line
   * between blocks) passes the clean-up unchanged.
   */
  lemma CleanTextFixpoint(s: string)
    requires s == [] || (!IsWs(s[0]) && !IsWs(s[|s| - 1]))
    requires forall i :: 0 <= i < |s| && IsBlank(s[i]) ==> s[i] == ' '
    requires NoDoubleBlank(s) && NlScan(s, 0)
    ensures CleanText(s) == s
  {
    CollapseBlankLinesFixpoint(s);
    CollapseRunsFixpoint(s, Blank);
    StripFixpoint(s);
  }

  /** Cleaning the converter's output again changes nothing. */
  lemma CleanTextIdempotent(raw: string)
    ensures CleanText(CleanText(raw)) == CleanText(raw)
  {
    CleanTextFixpoint(CleanText(raw));
  }

  /** The whole converter: feed the events to a fresh parser and take `get_text`. */
  function HtmlToText(toks: seq<Token>): string {
    CleanText(Join(Fragments(toks, None)))
  }

  // ---------------------------------------------------------------------------
  // Lemmas about the clean-up

  lemma {:induction false} ScanThroughWs(p: string, q: string, n: nat)
    requires AllWs(p) && n + CountNl(p) <= 2 && NlScan(q, n + CountNl(p))
    ensures NlScan(p + q, n)
    decreases |p|
  {
    if p != [] {
      assert (p + q)[1..] == p[1..] + q;
      assert AllWs(p[1..]) by {
        forall i | 0 <= i < |p| - 1 ensures IsWs(p[1..][i]) {
          assert p[1..][i] == p[i + 1];
        }
      }
      ScanThroughWs(p[1..], q, if p[0] == '\n' then n + 1 else n);
    } else {
      assert p + q == q;
    }
  }

  lemma {:induction false} ScanAcrossWs(p: string, q: string, n: nat)
    requires AllWs(p) && NlScan(p + q, n)
    ensures NlScan(q, n + CountNl(p))
    ensures CountNl(p) > 0 ==> n + CountNl(p) <= 2
    decreases |p|
  {
    if p != [] {
      assert (p + q)[1..] == p[1..] + q;
      assert AllWs(p[1..]) by {
        forall i | 0 <= i < |p| - 1 ensures IsWs(p[1..][i]) {
          assert p[1..][i] == p[i + 1];
        }
      }
      ScanAcrossWs(p[1..], q, if p[0] == '\n' then n + 1 else n);
    } else {
      assert p + q == q;
    }
  }

  lemma ScanReset(s: string, n: nat)
    requires s != [] && !IsWs(s[0])
    ensures NlScan(s, n) == NlScan(s, 0)
  {
  }

  lemma {:induction false} ScanPrefix(s: string, j: nat, n: nat)
    requires j <= |s| && NlScan(s, n)
    ensures NlScan(s[..j], n)
    decreases |s|
  {
    if j > 0 {
      assert s[..j][1..] == s[1..][..j - 1];
      ScanPrefix(s[1..], j - 1, if s[0] == '\n' then n + 1 else if IsWs(s[0]) then n else 0);
    }
  }

  /** The part of `s` that `SkipRun` removes, and what it leaves. */
  lemma SkipRunSplit(s: string, k: CharClass) returns (run: string)
    requires forall c :: InClass(c, k) ==> IsWs(c)
    ensures s == run + SkipRun(s, k) && AllWs(run)
    ensures k == Blank ==> CountNl(run) == 0
  {
    var rest := SkipRun(s, k);
    run := s[..|s| - |rest|];
    assert s == run + rest;
    assert forall i :: 0 <= i < |run| ==> InClass(run[i], k);
    if k == Blank {
      NoNewlineCount(run);
    }
  }

  lemma {:induction false} NoNewlineCount(p: string)
    requires forall i :: 0 <= i < |p| ==> p[i] != '\n'
    ensures CountNl(p) == 0
  {
    if p != [] {
      NoNewlineCount(p[1..]);
    }
  }

  /**
   * After the blank-line substitution no three line feeds are separated only by
   * whitespace, and every non-whitespace character is still there, in order.
   */
  lemma {:induction false} CollapseBlankLinesScan(s: string)
    ensures NlScan(CollapseBlankLines(s), 0)
    decreases |s|
  {
    if s == [] {
    } else if s[0] == '\n' {
      var rest := SkipRun(s, Whitespace);
      var run := SkipRunSplit(s, Whitespace);
      var tail := CollapseBlankLines(rest);
      CollapseBlankLinesScan(rest);
      var kept := KeptRun(run);
      KeptRunShape(run);
      assert NlScan(tail, CountNl(kept)) by {
        if rest != [] {
          ScanReset(tail, CountNl(kept));
        }
      }
      ScanThroughWs(kept, tail, 0);
    } else {
      CollapseBlankLinesScan(s[1..]);
      var tail := CollapseBlankLines(s[1..]);
      assert ([s[0]] + tail)[1..] == tail;
    }
  }

  lemma {:induction false} CollapseBlankLinesKeepsWords(s: string)
    ensures NonWs(CollapseBlankLines(s)) == NonWs(s)
    decreases |s|
  {
    if s == [] {
    } else if s[0] == '\n' {
      var rest := SkipRun(s, Whitespace);
      var run := SkipRunSplit(s, Whitespace);
      CollapseBlankLinesKeepsWords(rest);
      var kept := KeptRun(run);
      KeptRunShape(run);
      NonWsOfAllWs(kept);
      NonWsOfAllWs(run);
      NonWsConcat(kept, CollapseBlankLines(rest));
      NonWsConcat(run, rest);
    } else {
      CollapseBlankLinesKeepsWords(s[1..]);
      NonWsConcat([s[0]], CollapseBlankLines(s[1..]));
      assert s == [s[0]] + s[1..];
      NonWsConcat([s[0]], s[1..]);
    }
  }

  /**
   * Text that already has at most one blank line between blocks passes the substitution
   * unchanged: an existing pair of line feeds stays a pair.
   */
  lemma {:induction false} CollapseBlankLinesFixpoint(s: string)
    requires NlScan(s, 0)
    ensures CollapseBlankLines(s) == s
    decreases |s|
  {
    if s == [] {
    } else if s[0] == '\n' {
      var rest := SkipRun(s, Whitespace);
      var run := SkipRunSplit(s, Whitespace);
      ScanAcrossWs(run, rest, 0);
      if rest != [] {
        ScanReset(rest, CountNl(run));
      }
      CollapseBlankLinesFixpoint(rest);
    } else {
      CollapseBlankLinesFixpoint(s[1..]);
    }
  }

  lemma CapGapsCons(x: Tok, t: seq<Tok>, cap: nat)
    ensures CapGaps([x] + t, cap) == [Cap(x, cap)] + CapGaps(t, cap)
  {
  }

  /**
   * The blank-line substitution keeps every word and every gap, and a gap keeps its line
   * feeds up to two: the gaps with three or more become gaps with exactly two.
   */
  lemma {:induction false} CollapseBlankLinesTokens(s: string)
    ensures Tokens(CollapseBlankLines(s), Whitespace) == CapGaps(Tokens(s, Whitespace), 2)
    decreases |s|
  {
    if s == [] {
    } else if s[0] == '\n' {
      var rest := SkipRun(s, Whitespace);
      var run := SkipRunSplit(s, Whitespace);
      var tail := CollapseBlankLines(rest);
      CollapseBlankLinesTokens(rest);
      assert run != [] && forall i :: 0 <= i < |run| ==> InClass(run[i], Whitespace);
      TokensGapRun(run, rest, Whitespace);
      var kept := KeptRun(run);
      KeptRunShape(run);
      assert tail == [] || !InClass(tail[0], Whitespace) by {
        if rest != [] {
          assert tail == [rest[0]] + CollapseBlankLines(rest[1..]);
        }
      }
      TokensGapRun(kept, tail, Whitespace);
      CapGapsCons(Gap(CountNl(run)), Tokens(rest, Whitespace), 2);
    } else {
      CollapseBlankLinesTokens(s[1..]);
      TokensCons(s[0], CollapseBlankLines(s[1..]), Whitespace);
      if IsWs(s[0]) {
        CapPushGap(0, Tokens(s[1..], Whitespace), 2);
      } else {
        CapPushWord(s[0], Whitespace, Tokens(s[1..], Whitespace), 2);
      }
    }
  }

  /** The scan over a string that starts with `c`, one step unfolded. */
  lemma ScanCons(c: char, t: string, n: nat)
    ensures NlScan([c] + t, n) ==
            if c == '\n' then n < 2 && NlScan(t, n + 1)
            else if IsWs(c) then NlScan(t, n)
            else NlScan(t, 0)
  {
    assert ([c] + t)[1..] == t;
  }

  /** Squeezing spaces and tabs never creates a blank-line run. */
  lemma {:induction false} SqueezeKeepsScan(s: string, n: nat)
    requires NlScan(s, n)
    ensures NlScan(CollapseRuns(s, Blank), n)
    decreases |s|, 1
  {
    if s == [] {
    } else if IsBlank(s[0]) {
      SqueezeBlankRun(s, n);
    } else {
      assert !InClass(s[0], Blank);
      var m := if s[0] == '\n' then n + 1 else if IsWs(s[0]) then n else 0;
      SqueezeKeepsScan(s[1..], m);
      ScanCons(s[0], CollapseRuns(s[1..], Blank), n);
    }
  }

  /** A leading run of spaces and tabs becomes one space and adds no line feed. */
  lemma {:induction false} SqueezeBlankRun(s: string, n: nat)
    requires s != [] && IsBlank(s[0]) && NlScan(s, n)
    ensures NlScan(CollapseRuns(s, Blank), n)
    decreases |s|, 0
  {
    assert InClass(s[0], Blank);
    var rest := SkipRun(s[1..], Blank);
    var run := SkipRunSplit(s[1..], Blank);
    ScanAcrossWs(run, rest, n);
    SqueezeKeepsScan(rest, n);
    ScanCons(' ', CollapseRuns(rest, Blank), n);
  }

  /** Stripping keeps "no double blank" and "no blank-line run". */
  lemma StripKeepsShape(s: string)
    requires NoDoubleBlank(s) && NlScan(s, 0)
    ensures NoDoubleBlank(Strip(s)) && NlScan(Strip(s), 0)
  {
    StripKeepsScan(s);
    StripKeepsNoAdjacent(s, Blank);
  }

  lemma StripKeepsScan(s: string)
    requires NlScan(s, 0)
    ensures NlScan(Strip(s), 0)
  {
    var l := SkipRun(s, Whitespace);
    var run := SkipRunSplit(s, Whitespace);
    ScanAcrossWs(run, l, 0);
    if l != [] {
      ScanReset(l, CountNl(run));
    }
    ScanPrefix(l, |StripRight(l)|, 0);
  }

  // ---------------------------------------------------------------------------
  // The parser object

  /** `HTMLToTextParser`: `text` is the fragment list, `currentTag` the single tag slot. */
  class HtmlToTextParser {
    var text: seq<string>
    var currentTag: Option<string>

    constructor ()
      ensures text == [] && currentTag == None
    {
      text := [];
      currentTag := None;
    }

    /** A start tag takes the slot; `<br>` also adds one line feed. */
    method HandleStartTag(tag: string)
      modifies this
      ensures currentTag == Some(Lower(tag))
      ensures text == old(text) + (if Lower(tag) == "br" then ["\n"] else [])
    {
      currentTag := Some(Lower(tag));
      if Lower(tag) == "br" {
        text := text + ["\n"];
      }
    }

    /** An end tag empties the slot; `</p>`, `</div>`, `</li>` also add one line feed. */
    method HandleEndTag(tag: string)
      modifies this
      ensures currentTag == None
      ensures text == old(text) + (if Lower(tag) in LineBlockTags then ["\n"] else [])
    {
      if Lower(tag) in LineBlockTags {
        text := text + ["\n"];
      }
      currentTag := None;
    }

    /** Data is kept verbatim unless the slot holds a skipped tag. */
    method HandleData(data: string)
      modifies this
      ensures currentTag == old(currentTag)
      ensures text == old(text) + (if Skipping(old(currentTag)) then [] else [data])
    {
      if !Skipping(currentTag) {
        text := text + [data];
      }
    }

    /** One event passed to its handler: the fragments grow by `Emit`, the slot moves by `NextTag`. */
    method Handle(t: Token)
      modifies this
      ensures text == old(text) + Emit(old(currentTag), t)
      ensures currentTag == NextTag(old(currentTag), t)
    {
      match t {
        case Start(n) => HandleStartTag(n);
        case End(n) => HandleEndTag(n);
        case Data(s) => HandleData(s);
      }
    }

    /** `feed`: dispatches each event, in order, to its handler. */
    method Feed(toks: seq<Token>)
      modifies this
      ensures text == old(text) + Fragments(toks, old(currentTag))
      ensures currentTag == TagAfter(toks, old(currentTag))
    {
      ghost var text0, tag0 := text, currentTag;
      var i := 0;
      while i < |toks|
        invariant 0 <= i <= |toks|
        invariant text == text0 + Fragments(toks[..i], tag0)
        invariant currentTag == TagAfter(toks[..i], tag0)
      {
        PrefixStep(toks, i, tag0);
        Handle(toks[i]);
        i := i + 1;
      }
      assert toks[..i] == toks;
    }

    /** `get_text`: the cleaned text of everything collected so far. */
    function GetText(): (r: string)
      reads this
      ensures r == [] || (!IsWs(r[0]) && !IsWs(r[|r| - 1]))
      ensures NoDoubleBlank(r) && NlScan(r, 0)
      ensures NonWs(r) == NonWs(Join(text))
      ensures r == CleanText(Join(text))
    {
      CleanText(Join(text))
    }
  }

  /** What `extract_email_body` does with an HTML part's decoded text. */
  method ConvertHtml(toks: seq<Token>) returns (r: string)
    ensures r == HtmlToText(toks)
  {
    var parser := new HtmlToTextParser();
    parser.Feed(toks);
    assert parser.text == Fragments(toks, None);
    r := parser.GetText();
  }
}
