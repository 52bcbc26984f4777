/** Texts that show where the YAML reader's description stops. */
module YamlExamples {
  import opened Wrappers
  import opened Text
  import opened Yaml
  import opened YamlInline
  import opened YamlRoundTrip

  const EMPTY_VALUE := "{a:}"

  lemma ScanEmptyValue()
    ensures FlowScan(EMPTY_VALUE, 0, 0, None, [], "") == ([], "a:", Some(3))
  {
    var s := EMPTY_VALUE;
    assert "" + [s[1]] == "a" && "a" + [s[2]] == "a:";
    assert FlowScan(s, 3, 1, None, [], "a:") == ([], "a:", Some(3));
    assert FlowScan(s, 2, 1, None, [], "a") == ([], "a:", Some(3));
    assert FlowScan(s, 1, 1, None, [], "") == ([], "a:", Some(3));
  }

  lemma LetterKey(c: char)
    requires 'a' <= c <= 'z'
    ensures PlainKey([c])
  {
    hide SplitKey;
  }

  lemma SplitA()
    ensures SplitKey("a:") == Some(("a", ""))
  {
    hide SplitKey, PlainKey, IsSpace;
    LetterKey('a');
    SplitEntry("a", "");
    assert "a" + ":" + "" == "a:";
  }

  /** A flow mapping entry without a value is an IndexError, not `Unsupported`. */
  lemma FlowEmptyValueCrashes(no: nat)
    ensures Flow(EMPTY_VALUE, no) == Crash
  {
    hide FlowScan, FlowEntries, FlowItems, Strip;
    ScanEmptyValue();
    AColon();
    EntryCrashes(no);
    assert EMPTY_VALUE[4..] == "";
    assert [] + ["a:"] == ["a:"];
  }

  lemma {:induction false} EntryCrashes(no: nat)
    ensures FlowEntries(["a:"], no) == Crash
  {
    hide SplitKey;
    SplitA();
  }

  lemma AColon()
    ensures Strip("a:") == "a:" && Strip("") == ""
  {
    NoSpaces();
    hide IsSpace, Strip, LStrip, RStrip;
    StripTrimmed("a:");
    StripEmpty("");
  }

  lemma StripEmpty(s: string)
    requires s == []
    ensures Strip(s) == s
  {
  }

  lemma NoSpaces()
    ensures !IsSpace('a') && !IsSpace(':')
  {
  }

  lemma ValueTrimmed()
    ensures Trimmed(EMPTY_VALUE) && NoComment(EMPTY_VALUE) && NoComment("k:") && !IsSpace('k') && !IsSpace('}')
  {
  }

  lemma EntrySplit()
    ensures SplitKey("k: {a:}") == Some(("k", EMPTY_VALUE)) && GoodText("k: {a:}")
  {
    hide SplitKey, PlainKey, IsSpace, Trimmed, NoComment, GoodText;
    ValueTrimmed();
    LetterKey('k');
    SplitEntry("k", EMPTY_VALUE);
    SpacedGood("k:", EMPTY_VALUE);
    assert "k" + ":" + ([' '] + EMPTY_VALUE) == "k: {a:}" && "k:" + [' '] + EMPTY_VALUE == "k: {a:}";
  }

  lemma BufferCrashes(ln: Line)
    requires ln.indent == 0 && ln.text == "k: {a:}"
    ensures Block(["k: {a:}"], [ln], 0, 0) == Crash
  {
    EntrySplit();
    FlowEmptyValueCrashes(ln.no);
    hide Flow, SplitKey, GoodText, Scalar, BlockBody, Join, DropEmptyTail;
    var raw, lines := ["k: {a:}"], [ln];
    assert Value(raw, lines, 1, EMPTY_VALUE, ln, 0) == Crash;
    assert Skip(lines, 0) == 0;
    assert MapTail(raw, lines, 0, 0, []) == Crash;
    assert MapBlock(raw, lines, 0, 0, ln.no) == Crash;
  }

  lemma BufferScans()
    ensures Scan(["k: {a:}"], 1) == Ok([Line(1, 0, "k: {a:}", None)])
  {
    hide GoodText, ScanLine, SplitKey, Scan;
    EntrySplit();
    var ps := [Printed(0, "k: {a:}")];
    assert Render(ps) == ["k: {a:}"] by { assert Spaces(0) + "k: {a:}" == "k: {a:}"; }
    RenderScans(ps, 1);
    var lines := Scan(["k: {a:}"], 1).value;
    assert lines == [lines[0]];
  }

  /** The whole reader crashes on such a text. */
  lemma ReaderCrashes()
    ensures Parse(["k: {a:}"]) == Crash
  {
    hide Scan, Block;
    BufferScans();
    var ln := Line(1, 0, "k: {a:}", None);
    assert Skip([ln], 0) == 0;
    BufferCrashes(ln);
  }

  /** `'it''s #1'` is a scalar with the value `it's #1`, and is cut at a comment before it is read as one. */
  lemma DoubledQuoteCuts()
    ensures Scalar(ScalarText("it's #1", Single), 1) == Ok("it's #1")
    ensures StripComment(ScalarText("it's #1", Single)).1.Some?
  {
    var v := "it's #1";
    assert QuoteHash(v, 2, 5);
    assert HashAfterQuote(v) && '"' !in v;
    hide HashAfterQuote, ScalarText, CommentAt, RStrip, Strip;
    QuotedReads(v, Single, 1);
    SingleExactly(v);
  }
}
