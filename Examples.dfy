/**
 * Worked inputs for the converter and the parser: the event sequences an HTML tokenizer
 * reports for small documents, fed through `HtmlToTextParser`'s feed loop or one handler
 * call at a time, and the text `get_text` returns for them.
 */
module Examples {
  import opened Wrappers
  import opened TextUtil
  import opened HtmlText
  import opened EmailParser

  /** A name already in lower case is its own lowercase form. */
  lemma LowerFixed(s: string)
    requires forall i :: 0 <= i < |s| ==> 'a' <= s[i] <= 'z'
    ensures Lower(s) == s
  {
  }

  /** A clean line passes the clean-up unchanged. */
  lemma CleanLine(s: string)
    requires IsCleanLine(s)
    ensures CleanText(s) == s
  {
    NoNewlineCount(s);
    FewNewlinesScan(s, 0);
    CleanTextFixpoint(s);
  }

  /** A line of text: non-empty, no line feed or tab, no double space, no edge whitespace. */
  predicate IsCleanLine(s: string) {
    && s != [] && !IsWs(s[0]) && !IsWs(s[|s| - 1])
    && (forall i :: 0 <= i < |s| ==> s[i] != '\n' && s[i] != '\t')
    && NoDoubleBlank(s)
  }

  /** The text of the paragraph document is already clean. */
  lemma ParagraphTextClean()
    ensures CleanText("Hello World" + "\n\n" + "Bye") == "Hello World" + "\n\n" + "Bye"
  {
    assert IsCleanLine("Hello World") && IsCleanLine("Bye");
    BlankLineKept("Hello World", "Bye");
  }

  /** The text of the script document is already clean. */
  lemma VisibleTextClean()
    ensures CleanText("Visible text") == "Visible text"
  {
    assert IsCleanLine("Visible text");
    CleanLine("Visible text");
  }

  /** The text of the nested document is already clean. */
  lemma SaleHiClean()
    ensures CleanText("Sale" + "Hi") == "Sale" + "Hi"
  {
    assert IsCleanLine("Sale" + "Hi");
    CleanLine("Sale" + "Hi");
  }

  /** Two clean lines separated by one blank line pass the clean-up unchanged. */
  lemma BlankLineKept(a: string, b: string)
    requires IsCleanLine(a) && IsCleanLine(b)
    ensures CleanText(a + "\n\n" + b) == a + "\n\n" + b
  {
    var s := a + "\n\n" + b;
    NoNewlineCount(a);
    NoNewlineCount(b);
    CountNlConcat(a, "\n\n");
    CountNlConcat(a + "\n\n", b);
    FewNewlinesScan(s, 0);
    assert forall i :: 0 <= i < |s| ==> s[i] == if i < |a| then a[i] else if i < |a| + 2 then '\n' else b[i - |a| - 2];
    CleanTextFixpoint(s);
  }

  /** Handling a non-empty run of events: its first event, then the rest from the new slot. */
  lemma FragmentsCons(toks: seq<Token>, init: Option<string>)
    requires toks != []
    ensures Fragments(toks, init) == Emit(init, toks[0]) + Fragments(toks[1..], NextTag(init, toks[0]))
  {
    FragmentsConcat([toks[0]], toks[1..], init);
    assert TagAfter([toks[0]], init) == NextTag(init, toks[0]) by {
      assert [toks[0]][..0] == [];
    }
    assert Fragments([toks[0]], init) == Emit(init, toks[0]) by {
      assert [toks[0]][..0] == [];
    }
    assert [toks[0]] + toks[1..] == toks;
  }

  /** Joining a non-empty fragment list: its first fragment, then the rest. */
  lemma JoinCons(f: seq<string>)
    requires f != []
    ensures Join(f) == f[0] + Join(f[1..])
  {
    JoinConcat([f[0]], f[1..]);
    assert [f[0]] + f[1..] == f;
    assert Join([f[0]]) == f[0] by {
      assert [f[0]][..0] == [];
    }
  }

  /** Two fragments join to their two texts. */
  lemma JoinPair(a: string, b: string)
    ensures Join([a, b]) == a + b
  {
    JoinCons([a, b]);
    assert [a, b][1..] == [b];
    JoinCons([b]);
    assert [b][1..] == [];
  }

  /** The events `html.parser` reports for `<p>Hello <b>World</b></p><br>Bye`. */
  const ParagraphEvents: seq<Token> :=
    [Start("p"), Data("Hello "), Start("b"), Data("World"), End("b"), End("p"), Start("br"), Data("Bye")]

  /**
   * The fragments the converter collects for the paragraph document, two events at a time:
   * the text after `<p>`, the text inside `<b>`, the line feed at the end of the paragraph,
   * then the line break and the last word.
   */
  lemma ParagraphFragments()
    ensures Fragments(ParagraphEvents, None) == ["Hello ", "World", "\n", "\n", "Bye"]
  {
    var open: seq<Token> := [Start("p"), Data("Hello ")];
    var bold: seq<Token> := [Start("b"), Data("World")];
    var close: seq<Token> := [End("b"), End("p")];
    var tail: seq<Token> := [Start("br"), Data("Bye")];
    assert ParagraphEvents == open + bold + close + tail;
    OpenPair();
    BoldPair();
    ClosePair();
    TailPair();
    FragmentsFour(open, bold, close, tail, None);
  }

  lemma OpenPair()
    ensures TagAfter([Start("p"), Data("Hello ")], None) == Some("p")
    ensures Fragments([Start("p"), Data("Hello ")], None) == ["Hello "]
  {
    LowerFixed("p");
    PairStep(Start("p"), Data("Hello "), None);
  }

  lemma BoldPair()
    ensures TagAfter([Start("b"), Data("World")], Some("p")) == Some("b")
    ensures Fragments([Start("b"), Data("World")], Some("p")) == ["World"]
  {
    LowerFixed("b");
    PairStep(Start("b"), Data("World"), Some("p"));
  }

  lemma ClosePair()
    ensures TagAfter([End("b"), End("p")], Some("b")) == None
    ensures Fragments([End("b"), End("p")], Some("b")) == ["\n"]
  {
    LowerFixed("b");
    LowerFixed("p");
    PairStep(End("b"), End("p"), Some("b"));
  }

  lemma TailPair()
    ensures Fragments([Start("br"), Data("Bye")], None) == ["\n", "Bye"]
  {
    LowerFixed("br");
    PairStep(Start("br"), Data("Bye"), None);
  }

  /** Four runs of events handled one after the other, each from the slot the previous leaves. */
  lemma FragmentsFour(a: seq<Token>, b: seq<Token>, c: seq<Token>, d: seq<Token>, init: Option<string>)
    ensures var ta := TagAfter(a, init);
            var tb := TagAfter(b, ta);
            Fragments(a + b + c + d, init) ==
            Fragments(a, init) + Fragments(b, ta) + Fragments(c, tb) + Fragments(d, TagAfter(c, tb))
  {
    TagAfterConcat(a, b, init);
    FragmentsConcat(a, b, init);
    TagAfterConcat(a + b, c, init);
    FragmentsConcat(a + b, c, init);
    FragmentsConcat(a + b + c, d, init);
  }

  /** Two events handled from the slot `init`. */
  lemma PairStep(t: Token, u: Token, init: Option<string>)
    ensures TagAfter([t, u], init) == NextTag(NextTag(init, t), u)
    ensures Fragments([t, u], init) == Emit(init, t) + Emit(NextTag(init, t), u)
  {
    assert TagAfter([t], init) == NextTag(init, t) && Fragments([t], init) == Emit(init, t) by {
      assert [t][..0] == [];
    }
    assert [t, u][..1] == [t];
  }

  /** The joined paragraph fragments. */
  lemma JoinParagraph()
    ensures Join(["Hello ", "World", "\n", "\n", "Bye"]) == "Hello World" + "\n\n" + "Bye"
  {
    var f: seq<string> := ["Hello ", "World", "\n", "\n", "Bye"];
    JoinCons(f);
    JoinCons(f[1..]);
    JoinCons(f[2..]);
    JoinCons(f[3..]);
    JoinCons(f[4..]);
    assert f[5..] == [];
  }

  /**
   * `<p>Hello <b>World</b></p><br>Bye` through the converter's feed loop: the end of the
   * paragraph and the line break each give one line feed, so the words are separated by a
   * blank line.
   */
  method ParagraphExample() returns (r: string)
    ensures r == "Hello World" + "\n\n" + "Bye"
  {
    ParagraphFragments();
    JoinParagraph();
    ParagraphTextClean();
    r := ConvertHtml(ParagraphEvents);
  }

  /**
   * The same document handled one call at a time, as `feed` dispatches to the handlers.
   */
  method ParagraphByHandlers() returns (r: string)
    ensures r == "Hello World" + "\n\n" + "Bye"
  {
    LowerFixed("p");
    LowerFixed("b");
    LowerFixed("br");
    var parser := new HtmlToTextParser();
    parser.HandleStartTag("p");
    parser.HandleData("Hello ");
    parser.HandleStartTag("b");
    parser.HandleData("World");
    parser.HandleEndTag("b");
    parser.HandleEndTag("p");
    parser.HandleStartTag("br");
    parser.HandleData("Bye");
    assert parser.text == ["Hello ", "World", "\n", "\n", "Bye"];
    JoinParagraph();
    ParagraphTextClean();
    r := parser.GetText();
  }

  /** `<script>var x</script>Visible text`: the script's text is dropped. */
  method ScriptExample() returns (r: string)
    ensures r == "Visible text"
  {
    LowerFixed("script");
    var parser := new HtmlToTextParser();
    parser.HandleStartTag("script");
    parser.HandleData("var x");
    parser.HandleEndTag("script");
    parser.HandleData("Visible text");
    assert parser.text == ["Visible text"];
    assert Join(parser.text) == "Visible text" by {
      JoinCons(parser.text);
      assert parser.text[1..] == [];
    }
    VisibleTextClean();
    r := parser.GetText();
  }

  /**
   * `<head><title>Sale</title></head>Hi`: the slot holds one tag, not a stack, so the
   * title opened inside the skipped head replaces it and the title's text is kept.
   */
  method NestedInSkippedExample() returns (r: string)
    ensures r == "Sale" + "Hi"
  {
    LowerFixed("head");
    LowerFixed("title");
    var parser := new HtmlToTextParser();
    parser.HandleStartTag("head");
    parser.HandleStartTag("title");
    parser.HandleData("Sale");
    parser.HandleEndTag("title");
    parser.HandleEndTag("head");
    parser.HandleData("Hi");
    assert parser.text == ["Sale", "Hi"];
    JoinPair("Sale", "Hi");
    SaleHiClean();
    r := parser.GetText();
  }
}
