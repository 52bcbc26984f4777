/** The reader as `check_workflows.py` runs it: a position that moves, and a line buffer rewritten in place. */
module YamlParser {
  import opened Wrappers
  import opened Text
  import opened Yaml

  /** The indices of the lines with text in `[a, b)`, in order. */
  ghost function TextLines(lines: seq<Line>, a: nat, b: nat): seq<nat>
    requires a <= b <= |lines|
    decreases b - a
  {
    if a == b then [] else TextLines(lines, a, b - 1) + (if lines[b - 1].text != "" then [b - 1] else [])
  }

  lemma {:induction false} BlankLines(lines: seq<Line>, a: nat, b: nat, c: nat)
    requires a <= b <= c <= |lines| && forall i :: b <= i < c ==> lines[i].text == ""
    ensures TextLines(lines, a, c) == TextLines(lines, a, b)
    decreases c - b
  {
    if b < c { BlankLines(lines, a, b, c - 1); }
  }

  lemma {:induction false} TextLinesConcat(lines: seq<Line>, a: nat, b: nat, c: nat)
    requires a <= b <= c <= |lines|
    ensures TextLines(lines, a, c) == TextLines(lines, a, b) + TextLines(lines, b, c)
    decreases c - b
  {
    if b < c { TextLinesConcat(lines, a, b, c - 1); }
  }

  /** `__init__`'s loop over the raw lines. */
  method ScanAll(raw: seq<string>) returns (r: Outcome<seq<Line>>)
    ensures r == Scan(raw, 1)
  {
    var lines: seq<Line> := [];
    assert raw[0..] == raw;
    ScanOnto([], raw, 1);
    for i := 0 to |raw|
      invariant |lines| == i
      invariant Scan(raw, 1) == Onto(lines, Scan(raw[i..], i + 1))
    {
      var line := ScanLine(i + 1, raw[i]);
      assert raw[i..][1..] == raw[i + 1..];
      match line
      case Unsupported(n) => return Unsupported(n);
      case Crash => return Crash;
      case Ok(l) =>
        ScanOnto(lines, raw[i..], i + 1);
        lines := lines + [l];
    }
    assert lines + [] == lines;
    r := Ok(lines);
  }

  /** A scan result with `lines` put before it. */
  ghost function Onto(lines: seq<Line>, rest: Outcome<seq<Line>>): Outcome<seq<Line>> {
    match rest
    case Ok(more) => Ok(lines + more)
    case Unsupported(n) => Unsupported(n)
    case Crash => Crash
  }

  lemma ScanOnto(lines: seq<Line>, raw: seq<string>, no: nat)
    ensures lines == [] ==> Onto(lines, Scan(raw, no)) == Scan(raw, no)
    ensures raw != [] && ScanLine(no, raw[0]).Ok? ==>
      Onto(lines, Scan(raw, no)) == Onto(lines + [ScanLine(no, raw[0]).value], Scan(raw[1..], no + 1))
  {
    hide ScanLine;
    if Scan(raw, no).Ok? && lines == [] {
      assert lines + Scan(raw, no).value == Scan(raw, no).value;
    }
    if raw != [] && ScanLine(no, raw[0]).Ok? && Scan(raw[1..], no + 1).Ok? {
      var line, rest := ScanLine(no, raw[0]).value, Scan(raw[1..], no + 1).value;
      assert lines + ([line] + rest) == lines + [line] + rest;
    }
  }

  class Parser {
    const raw: seq<string>
    var lines: seq<Line>
    var pos: nat
    /** The buffer as it was read, and the lines consumed so far, in order. */
    ghost const start: seq<Line>
    ghost var consumed: seq<nat>

    ghost predicate Valid()
      reads this
    {
      && |raw| == |lines| == |start| && pos <= |lines|
      && (forall i :: 0 <= i < |lines| ==> (lines[i].text == "" <==> start[i].text == ""))
      && consumed == TextLines(start, 0, pos)
    }

    constructor (raw: seq<string>, lines: seq<Line>)
      requires |raw| == |lines|
      ensures Valid() && this.raw == raw && this.lines == lines && this.start == lines && pos == 0 && consumed == []
    {
      this.raw, this.lines, this.start, pos, consumed := raw, lines, lines, 0, [];
    }

    /** What a reader returned and left is what the function says. */
    ghost predicate Matches<T>(expected: Outcome<Read<T>>, r: Outcome<T>)
      reads this
    {
      match expected
      case Ok(Read(got, lines', pos')) => r == Ok(got) && lines == lines' && pos == pos'
      case Unsupported(n) => r == Unsupported(n)
      case Crash => r == Crash
    }

    /** `_skip_blank`. */
    method SkipBlank()
      requires Valid()
      modifies this`pos
      ensures Valid() && pos == Skip(lines, old(pos))
    {
      while pos < |lines| && lines[pos].text == ""
        invariant Valid() && Skip(lines, pos) == Skip(lines, old(pos))
        decreases |lines| - pos
      {
        BlankLines(start, 0, pos, pos + 1);
        pos := pos + 1;
      }
    }

    /** `self.pos += 1`: the line at `pos` is consumed. */
    method Advance()
      requires Valid() && pos < |lines| && lines[pos].text != ""
      modifies this`pos, this`consumed
      ensures Valid() && pos == old(pos) + 1 && consumed == old(consumed) + [old(pos)]
    {
      consumed := consumed + [pos];
      pos := pos + 1;
    }

    /** `_block_scalar`'s loop over the raw lines. */
    method ReadBody(from: nat, indent: nat) returns (i: nat, body: seq<string>, first: nat)
      requires from <= |raw|
      ensures (i, body, first) == BlockBody(raw, from, indent, None, [], 0) && from <= i <= |raw|
    {
      hide Strip, Indent;
      body, first, i := [], 0, from;
      var block: Option<nat> := None;
      while i < |raw|
        invariant from <= i <= |raw|
        invariant BlockBody(raw, i, indent, block, body, first) == BlockBody(raw, from, indent, None, [], 0)
        decreases |raw| - i
      {
        if Strip(raw[i]) == [] {
          body := body + [""];
          i := i + 1;
          continue;
        }
        var ind := Indent(raw[i]);
        if ind <= indent || (block.Some? && ind < block.value) {
          break;
        }
        if block.None? {
          block := Some(ind);
          first := i + 1;
        }
        body := body + [raw[i][block.value..]];
        i := i + 1;
      }
    }

    /** `_block_scalar`. */
    method ReadBlockScalar(rest: string, ln: Line, indent: nat) returns (node: Node)
      requires Valid() && IsBlockScalar(rest)
      modifies this`pos, this`consumed
      ensures Valid() && old(pos) <= pos
      ensures var (end, body, first) := BlockBody(raw, old(pos), indent, None, [], 0);
        && pos == end
        && node == ScalarLeaf(ln.no, Join(DropEmptyTail(body), if rest[0] == '|' then "\n" else " "),
                              if first != 0 then first else ln.no)
    {
      hide BlockBody, Join;
      var i, body, first := ReadBody(pos, indent);
      ghost var kept := DropEmptyTail(body);
      while body != [] && body[|body| - 1] == ""
        invariant DropEmptyTail(body) == kept
        decreases |body|
      {
        body := body[..|body| - 1];
      }
      TextLinesConcat(start, 0, pos, i);
      consumed := consumed + TextLines(start, pos, i);
      pos := i;
      node := ScalarLeaf(ln.no, Join(body, if rest[0] == '|' then "\n" else " "), if first != 0 then first else ln.no);
    }

    method ReadBlock(indent: nat) returns (r: Outcome<Node>)
      requires Valid() && pos < |lines| && lines[pos].text != ""
      modifies this
      ensures Matches(Block(raw, old(lines), old(pos), indent), r) && (r.Ok? ==> Valid())
      decreases |lines| - pos, TextLength(lines, pos), 3
    {
      hide MapBlock, SeqBlock, IsDash;
      if IsDash(lines[pos].text) {
        r := ReadSeq(indent);
      } else {
        r := ReadMap(indent);
      }
    }

    /** `_map`, from a line with text. */
    method ReadMap(indent: nat) returns (r: Outcome<Node>)
      requires Valid() && pos < |lines| && lines[pos].text != ""
      modifies this
      ensures Matches(MapBlock(raw, old(lines), old(pos), indent, old(lines)[old(pos)].no), r) && (r.Ok? ==> Valid())
      decreases |lines| - pos, TextLength(lines, pos), 2
    {
      hide IsDash, SplitKey, Value;
      var no := lines[pos].no;
      var children: seq<Node> := [];
      ghost var whole := MapTail(raw, lines, pos, indent, []);
      while true
        invariant Valid() && old(pos) <= pos && (pos == old(pos) ==> lines == old(lines))
        invariant MapTail(raw, lines, pos, indent, children) == whole
        decreases |lines| - pos
      {
        SkipBlank();
        if pos == |lines| || lines[pos].indent < indent {
          break;
        }
        var ln := lines[pos];
        if ln.indent > indent {
          return Unsupported(ln.no);
        }
        if IsDash(ln.text) {
          break;
        }
        var kv := SplitKey(ln.text);
        if kv.None? || kv.value.0 == "<<" {
          return Unsupported(ln.no);
        }
        Advance();
        var entry := ReadValue(kv.value.1, ln, indent);
        if !entry.Ok? {
          return entry;
        }
        if HasKey(children, kv.value.0) {
          return Unsupported(ln.no);
        }
        children := children + [entry.value.(key := Some(kv.value.0), line := ln.no, comment := ln.comment)];
      }
      r := Ok(Node(no, None, None, None, MapNode, children, [], 0));
    }

    /** `_seq`, from a line with text. */
    method ReadSeq(indent: nat) returns (r: Outcome<Node>)
      requires Valid() && pos < |lines| && lines[pos].text != ""
      modifies this
      ensures Matches(SeqBlock(raw, old(lines), old(pos), indent, old(lines)[old(pos)].no), r) && (r.Ok? ==> Valid())
      decreases |lines| - pos, TextLength(lines, pos), 2
    {
      hide IsDash, Item;
      var no := lines[pos].no;
      var items: seq<Node> := [];
      ghost var whole := SeqTail(raw, lines, pos, indent, []);
      while true
        invariant Valid() && old(pos) <= pos
        invariant pos == old(pos) ==> TextLength(lines, pos) <= TextLength(old(lines), pos)
        invariant SeqTail(raw, lines, pos, indent, items) == whole
        decreases |lines| - pos, TextLength(lines, pos)
      {
        SkipBlank();
        if pos == |lines| || lines[pos].indent < indent {
          break;
        }
        if lines[pos].indent > indent {
          return Unsupported(lines[pos].no);
        }
        if !IsDash(lines[pos].text) {
          break;
        }
        var item := ReadItem(indent);
        if !item.Ok? {
          return item;
        }
        items := items + [item.value];
      }
      r := Ok(Node(no, None, None, None, SeqNode, [], items, 0));
    }

    /** One turn of `_seq`'s loop, on a dash line. */
    method ReadItem(indent: nat) returns (item: Outcome<Node>)
      requires Valid() && pos < |lines| && IsDash(lines[pos].text)
      modifies this
      ensures Matches(Item(raw, old(lines), old(pos), indent), item) && (item.Ok? ==> Valid())
      decreases |lines| - pos, TextLength(lines, pos), 0
    {
      hide OpensMap, AfterDash, Value, MapBlock;
      var ln := lines[pos];
      var rest := AfterDash(ln.text);
      if OpensMap(rest) {
        var column := indent + (|ln.text| - |rest|);
        lines := lines[pos := Line(ln.no, column, rest, ln.comment)];
        item := ReadMap(column);
      } else {
        Advance();
        item := ReadValue(rest, ln, indent);
        if item.Ok? {
          item := Ok(item.value.(comment := ln.comment));
        }
      }
    }

    /** `_value`. */
    method ReadValue(rest: string, ln: Line, indent: nat) returns (r: Outcome<Node>)
      requires Valid()
      modifies this
      ensures Matches(Value(raw, old(lines), old(pos), rest, ln, indent), r) && (r.Ok? ==> Valid() && old(pos) <= pos)
      decreases |lines| - pos, TextLength(lines, pos), 4
    {
      hide IsDash, Block, SeqBlock, BlockBody, Flow, Scalar, Join, DropEmptyTail;
      if rest != [] && (rest[0] == '&' || rest[0] == '*' || rest[0] == '!') {
        return Unsupported(ln.no);
      }
      if rest == [] {
        SkipBlank();
        if pos < |lines| && lines[pos].indent > indent {
          r := ReadBlock(lines[pos].indent);
        } else if pos < |lines| && lines[pos].indent == indent && IsDash(lines[pos].text) && !IsDash(ln.text) {
          r := ReadSeq(indent);
        } else {
          r := Ok(Node(ln.no, None, None, None, NullNode, [], [], ln.no));
        }
        return r;
      }
      if IsBlockScalar(rest) {
        var node := ReadBlockScalar(rest, ln, indent);
        return Ok(node);
      }
      var node: Node;
      if rest[0] == '[' || rest[0] == '{' {
        r := Flow(rest, ln.no);
        if !r.Ok? {
          return r;
        }
        node := r.value;
      } else {
        var value := Scalar(rest, ln.no);
        match value
        case Unsupported(n) => return Unsupported(n);
        case Crash => return Crash;
        case Ok(v) => node := ScalarLeaf(ln.no, v, 0);
      }
      SkipBlank();
      if pos < |lines| && lines[pos].indent > indent {
        return Unsupported(lines[pos].no);
      }
      r := Ok(node.(valueLine := ln.no));
    }
  }

  /** `parse`: the tree of the whole text, every line with text consumed once and in order, or an error. */
  method ParseText(raw: seq<string>) returns (r: Outcome<Node>, ghost consumed: seq<nat>)
    ensures r == Parse(raw)
    ensures r.Ok? ==> Scan(raw, 1).Ok? && consumed == TextLines(Scan(raw, 1).value, 0, |raw|)
  {
    hide Block, Scan, TextLines, Skip;
    consumed := [];
    var lines := ScanAll(raw);
    match lines
    case Unsupported(n) => return Unsupported(n), [];
    case Crash => return Crash, [];
    case Ok(buffer) =>
      var parser := new Parser(raw, buffer);
      parser.SkipBlank();
      if parser.pos == |buffer| {
        return Ok(Node(1, None, None, None, MapNode, [], [], 0)), parser.consumed;
      }
      r := parser.ReadBlock(parser.lines[parser.pos].indent);
      if r.Ok? {
        parser.SkipBlank();
        if parser.pos < |parser.lines| {
          return Unsupported(parser.lines[parser.pos].no), [];
        }
        assert parser.pos == |raw|;
        consumed := parser.consumed;
      }
  }
}
