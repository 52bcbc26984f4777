/** Block scalars: what stands under `|` and `>` is read back. */
module YamlBody {
  import opened Wrappers
  import opened Text
  import opened Yaml
  import opened YamlRoundTrip

  predicate Blank(s: string) {
    forall i :: 0 <= i < |s| ==> IsSpace(s[i])
  }

  lemma StripBlank(s: string)
    ensures Strip(s) == [] <==> Blank(s)
  {
    hide IsSpace;
    var r := LStrip(s);
    hide LStrip;
    if r != [] {
      assert s[|s| - |r|] == r[0];
    }
  }

  /** The lines of a body stand at `pos`, indented by `b`; an empty one is any line of white space. */
  ghost predicate Stands(raw: seq<string>, pos: nat, b: nat, body: seq<string>) {
    && pos + |body| <= |raw|
    && forall k :: 0 <= k < |body| ==>
         if body[k] == "" then Blank(raw[pos + k]) else !Blank(body[k]) && raw[pos + k] == Spaces(b) + body[k]
  }

  /** The body's indentation is that of its line `f`, before which there are only empty lines; it does not end
      in an empty line. */
  ghost predicate IsBody(body: seq<string>, f: nat) {
    && f < |body| && body[f] != "" && body[f][0] != ' ' && body[|body| - 1] != ""
    && forall k :: 0 <= k < f ==> body[k] == ""
  }

  /** After `extra` more lines of white space comes the end, or a line indented less. */
  ghost predicate EndsAt(raw: seq<string>, p: nat, b: nat, extra: nat) {
    && p + extra <= |raw| && (forall i :: p <= i < p + extra ==> Blank(raw[i]))
    && (p + extra < |raw| ==> !Blank(raw[p + extra]) && Indent(raw[p + extra]) < b)
  }

  /** The lines with `sep` between them. */
  function Joined(body: seq<string>, sep: string): string {
    if body == [] then "" else if |body| == 1 then body[0] else Joined(body[..|body| - 1], sep) + sep + body[|body| - 1]
  }

  lemma {:induction false} JoinLast(body: seq<string>, last: string, sep: string)
    requires body != []
    ensures Join(body + [last], sep) == Join(body, sep) + sep + last
    decreases |body|
  {
    var all := body + [last];
    if |body| == 1 {
      assert all[1..] == [last];
    } else {
      assert all[1..] == body[1..] + [last];
      JoinLast(body[1..], last, sep);
      assert body[0] + sep + (Join(body[1..], sep) + sep + last) == body[0] + sep + Join(body[1..], sep) + sep + last;
    }
  }

  lemma {:induction false} JoinExactly(body: seq<string>, sep: string)
    ensures Join(body, sep) == Joined(body, sep)
    decreases |body|
  {
    if |body| > 1 {
      var front, last := body[..|body| - 1], body[|body| - 1];
      JoinExactly(front, sep);
      assert body == front + [last];
      JoinLast(front, last, sep);
    }
  }

  lemma IndentedLine(b: nat, text: string)
    requires !Blank(text)
    ensures var raw := Spaces(b) + text;
      !Blank(raw) && b <= Indent(raw) && b <= |raw| && raw[b..] == text && (text[0] != ' ' ==> Indent(raw) == b)
  {
    hide IsSpace;
    var raw := Spaces(b) + text;
    var i :| 0 <= i < |text| && !IsSpace(text[i]);
    assert raw[b + i] == text[i];
    assert raw[b..] == text && raw[b] == text[0];
    assert forall j :: 0 <= j < b ==> raw[j] == ' ';
  }

  /** One line of the body: an empty one, the one that gives the indentation, or another. */
  lemma BodyStep(raw: seq<string>, pos: nat, indent: nat, b: nat, body: seq<string>, f: nat, k: nat)
    requires Stands(raw, pos, b, body) && IsBody(body, f) && indent < b && k < |body|
    ensures BlockBody(raw, pos + k, indent, if k <= f then None else Some(b), body[..k], if k <= f then 0 else pos + f + 1)
         == BlockBody(raw, pos + k + 1, indent, if k < f then None else Some(b), body[..k + 1], if k < f then 0 else pos + f + 1)
  {
    hide IsSpace, Strip, Indent;
    StripBlank(raw[pos + k]);
    assert body[..k + 1] == body[..k] + [body[k]];
    if body[k] != "" { IndentedLine(b, body[k]); }
  }

  lemma {:induction false} BodyReads(raw: seq<string>, pos: nat, indent: nat, b: nat, body: seq<string>, f: nat, k: nat)
    requires Stands(raw, pos, b, body) && IsBody(body, f) && indent < b && k <= |body|
    ensures BlockBody(raw, pos + k, indent, if k <= f then None else Some(b), body[..k], if k <= f then 0 else pos + f + 1)
         == BlockBody(raw, pos + |body|, indent, Some(b), body, pos + f + 1)
    decreases |body| - k
  {
    hide Stands, BlockBody;
    if k < |body| {
      StandsFits(raw, pos, b, body);
      BodyStep(raw, pos, indent, b, body, f, k);
      BodyReads(raw, pos, indent, b, body, f, k + 1);
    } else {
      assert body[..k] == body;
    }
  }

  lemma StandsFits(raw: seq<string>, pos: nat, b: nat, body: seq<string>)
    requires Stands(raw, pos, b, body)
    ensures pos + |body| <= |raw|
  {
  }

  function Empties(n: nat): seq<string> {
    seq(n, _ => "")
  }

  lemma {:induction false} BlanksRead(raw: seq<string>, p: nat, indent: nat, b: nat, body: seq<string>, first: nat, extra: nat)
    requires EndsAt(raw, p, b, extra) && indent < b
    ensures BlockBody(raw, p, indent, Some(b), body, first) == (p + extra, body + Empties(extra), first)
    decreases extra
  {
    hide IsSpace, Strip, Indent;
    if p < |raw| { StripBlank(raw[p]); }
    if extra == 0 {
      assert body + Empties(0) == body;
    } else {
      BlanksRead(raw, p + 1, indent, b, body + [""], first, extra - 1);
      assert body + [""] + Empties(extra - 1) == body + Empties(extra);
    }
  }

  lemma {:induction false} EmptiesDropped(body: seq<string>, n: nat)
    requires body != [] && body[|body| - 1] != ""
    ensures DropEmptyTail(body + Empties(n)) == body
    decreases n
  {
    var all := body + Empties(n);
    if n == 0 {
      assert all == body;
    } else {
      assert all[..|all| - 1] == body + Empties(n - 1) && all[|all| - 1] == "";
      EmptiesDropped(body, n - 1);
    }
  }

  predicate IsLiteral(rest: string) { rest == "|" || rest == "|-" || rest == "|+" }

  predicate IsFolded(rest: string) { rest == ">" || rest == ">-" || rest == ">+" }

  function Separator(rest: string): string {
    if IsLiteral(rest) then "\n" else " "
  }

  lemma Indicator(rest: string)
    requires IsLiteral(rest) || IsFolded(rest)
    ensures rest != [] && IsBlockScalar(rest) && rest[0] != '&' && rest[0] != '*' && rest[0] != '!'
    ensures Separator(rest) == if rest[0] == '|' then "\n" else " "
    ensures !IsSpace(rest[0]) && !IsSpace(rest[|rest| - 1]) && NoComment(rest)
  {
  }

  /** A literal block scalar is its lines joined by newlines, a folded one by spaces, however deep it is
      indented; empty lines after it are dropped, and it ends at the first line indented less. */
  lemma {:induction false} BlockScalarReads(raw: seq<string>, lines: seq<Line>, pos: nat, rest: string, ln: Line, indent: nat,
                         b: nat, body: seq<string>, f: nat, extra: nat)
    requires |raw| == |lines| && pos <= |lines| && (IsLiteral(rest) || IsFolded(rest))
    requires Stands(raw, pos, b, body) && IsBody(body, f) && indent < b && EndsAt(raw, pos + |body|, b, extra)
    ensures Value(raw, lines, pos, rest, ln, indent) ==
      Ok(Read(ScalarLeaf(ln.no, Joined(body, Separator(rest)), pos + f + 1), lines, pos + |body| + extra))
  {
    hide Stands, EndsAt, BlockBody, DropEmptyTail, Join, Joined, Block, SeqBlock, Flow, Scalar, Skip;
    Indicator(rest);
    hide IsLiteral, IsFolded, IsBlockScalar, NoComment, IsSpace, Separator;
    StandsFits(raw, pos, b, body);
    assert body[..0] == [];
    BodyReads(raw, pos, indent, b, body, f, 0);
    BlanksRead(raw, pos + |body|, indent, b, body, pos + f + 1, extra);
    EmptiesDropped(body, extra);
    JoinExactly(body, "\n");
    JoinExactly(body, " ");
  }

  // ---- a whole document

  /** A line the scanner lets pass. */
  ghost predicate NoMarker(raw: string) {
    RStrip(raw[Indent(raw)..]) != "---" && RStrip(raw[Indent(raw)..]) != "..."
  }

  lemma {:induction false} ScansOk(raw: seq<string>, no: nat)
    requires forall i :: 0 <= i < |raw| ==> NoMarker(raw[i])
    ensures Scan(raw, no).Ok?
    decreases |raw|
  {
    hide NoMarker;
    if raw != [] {
      LineOk(no, raw[0]);
      ScansOk(raw[1..], no + 1);
    }
  }

  lemma LineOk(no: nat, raw: string)
    requires NoMarker(raw)
    ensures ScanLine(no, raw).Ok?
  {
    assert forall i :: 0 <= i < Indent(raw) ==> raw[i] == ' ';
    hide Indent, StripComment, RStrip;
  }

  function Header(key: string, rest: string): string {
    key + ":" + ([' '] + rest)
  }

  lemma HeaderSplits(key: string, rest: string)
    requires PlainKey(key) && (IsLiteral(rest) || IsFolded(rest))
    ensures var text := Header(key, rest);
      GoodText(text) && text != "" && SplitKey(text) == Some((key, rest)) && !IsDash(text) && key != "<<"
  {
    hide GoodText, SplitKey, IsSpace, Contains, NoComment, IsLineBreak, IsLiteral, IsFolded, IsBlockScalar;
    KeyPartGood(key);
    Indicator(rest);
    SplitEntry(key, rest);
    SpacedGood(key + ":", rest);
    var text := Header(key, rest);
    assert text == key + ":" + [' '] + rest && text[0] == key[0];
    if |key| > 1 { assert text[1] == key[1]; } else { assert text[1] == ':'; }
  }

  lemma {:induction false} DocumentLines(text: string, raw: seq<string>) returns (lines: seq<Line>)
    requires raw != [] && raw[0] == text && GoodText(text) && forall i :: 0 < i < |raw| ==> NoMarker(raw[i])
    ensures Scan(raw, 1) == Ok(lines) && |lines| == |raw| && lines[0] == Line(1, 0, text, None)
  {
    LineScans(1, 0, text);
    hide NoMarker, GoodText, ScanLine;
    assert Spaces(0) + text == text;
    ScansOk(raw[1..], 2);
    lines := Scan(raw, 1).value;
  }

  /** The one entry of a mapping whose value reaches to the end. */
  lemma {:induction false} OneEntry(raw: seq<string>, lines: seq<Line>, key: string, rest: string, node: Node)
    requires |raw| == |lines| > 0 && lines[0].indent == 0 && lines[0].text != "" && !IsDash(lines[0].text)
    requires SplitKey(lines[0].text) == Some((key, rest)) && key != "<<"
    requires Value(raw, lines, 1, rest, lines[0], 0) == Ok(Read(node, lines, |lines|))
    ensures Block(raw, lines, 0, 0) == Ok(Read(Node(lines[0].no, None, None, None, MapNode,
      [node.(key := Some(key), line := lines[0].no, comment := lines[0].comment)], [], 0), lines, |lines|))
  {
    hide SplitKey, Value, IsDash;
    var child := node.(key := Some(key), line := lines[0].no, comment := lines[0].comment);
    assert Skip(lines, 0) == 0 && Skip(lines, |lines|) == |lines|;
    assert [] + [child] == [child];
    assert MapTail(raw, lines, |lines|, 0, [child]) == Ok(Read([child], lines, |lines|));
    assert MapTail(raw, lines, 0, 0, []) == Ok(Read([child], lines, |lines|));
  }

  lemma {:induction false} ParsesBlock(raw: seq<string>, lines: seq<Line>, doc: Node)
    requires Scan(raw, 1) == Ok(lines) && |raw| == |lines| > 0 && lines[0].text != ""
    requires Block(raw, lines, 0, lines[0].indent) == Ok(Read(doc, lines, |lines|))
    ensures Parse(raw) == Ok(doc)
  {
    hide Scan, Block;
    assert Skip(lines, 0) == 0 && Skip(lines, |lines|) == |lines|;
  }

  /** A document of one key with a block scalar below it. */
  lemma {:induction false} DocumentReads(key: string, rest: string, raw: seq<string>, b: nat, body: seq<string>, f: nat, extra: nat)
    requires PlainKey(key) && (IsLiteral(rest) || IsFolded(rest)) && b > 0
    requires |raw| == 1 + |body| + extra && raw[0] == Header(key, rest)
    requires Stands(raw, 1, b, body) && IsBody(body, f) && EndsAt(raw, 1 + |body|, b, extra)
    requires forall i :: 0 < i < |raw| ==> NoMarker(raw[i])
    ensures Parse(raw).Ok? && |Parse(raw).value.children| == 1 && var node := Parse(raw).value.children[0];
      && node.key == Some(key) && node.kind == ScalarNode && node.line == 1 && node.valueLine == f + 2
      && node.value == Some(Joined(body, Separator(rest)))
  {
    HeaderSplits(key, rest);
    hide PlainKey, Stands, EndsAt, IsBody, NoMarker, Joined, GoodText, SplitKey, Value, IsDash, Scan, Header, Block, Parse;
    hide IsLiteral, IsFolded, Separator;
    var lines := DocumentLines(Header(key, rest), raw);
    BlockScalarReads(raw, lines, 1, rest, lines[0], 0, b, body, f, extra);
    var node := ScalarLeaf(1, Joined(body, Separator(rest)), f + 2);
    OneEntry(raw, lines, key, rest, node);
    hide ScalarLeaf;
    var doc := Node(1, None, None, None, MapNode, [node.(key := Some(key), line := 1, comment := None)], [], 0);
    assert Block(raw, lines, 0, 0) == Ok(Read(doc, lines, |lines|));
    ParsesBlock(raw, lines, doc);
  }
}
