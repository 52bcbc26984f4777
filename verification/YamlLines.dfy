/** What the YAML reader does to its line buffer, and what becomes of every line. */
module YamlLines {
  import opened Wrappers
  import opened Text
  import opened Yaml

  // ---- the buffer keeps its lines, but that a `- key: value` may become `key: value`

  /** A dash with nothing after it. */
  predicate LoneDash(text: string) {
    IsDash(text) && AfterDash(text) == ""
  }

  /** `b` is `a`, or what stands after one dash or more of `a`, each before a `key: value`. */
  ghost predicate Rewrites(a: string, b: string)
    decreases |a|
  {
    b == a || (IsDash(a) && OpensMap(AfterDash(a)) && Rewrites(AfterDash(a), b))
  }

  lemma {:induction false} RewritesTrans(a: string, b: string, c: string)
    requires Rewrites(a, b) && Rewrites(b, c)
    ensures Rewrites(a, c)
    decreases |a|
  {
    hide IsDash, OpensMap, AfterDash;
    if b != a { RewritesTrans(AfterDash(a), b, c); }
  }

  ghost predicate SameLine(before: Line, after: Line) {
    after.no == before.no && after.comment == before.comment && Rewrites(before.text, after.text)
  }

  /** The lines are those of `before`, but that a `- key: value` may have become `key: value`. */
  ghost predicate Similar(before: seq<Line>, after: seq<Line>) {
    |after| == |before| && forall i :: 0 <= i < |before| ==> SameLine(before[i], after[i])
  }

  lemma SimilarTrans(a: seq<Line>, b: seq<Line>, c: seq<Line>)
    requires Similar(a, b) && Similar(b, c)
    ensures Similar(a, c)
  {
    hide Rewrites;
    forall i | 0 <= i < |a|
      ensures SameLine(a[i], c[i])
    {
      assert SameLine(a[i], b[i]) && SameLine(b[i], c[i]);
      RewritesTrans(a[i].text, b[i].text, c[i].text);
    }
  }

  /** A rewritten line is still no empty line and no lone dash. */
  lemma {:induction false} RewritesShape(a: string, b: string)
    requires Rewrites(a, b)
    ensures (a == "" <==> b == "") && (LoneDash(a) <==> LoneDash(b))
    decreases |a|
  {
    if b != a {
      var rest := AfterDash(a);
      if LoneDash(rest) { NoKeyAfterDash(rest); }
      hide OpensMap, AfterDash;
      RewritesShape(rest, b);
    }
  }

  ghost predicate Kept<T>(lines: seq<Line>, r: Outcome<Read<T>>) {
    r.Ok? ==> Similar(lines, r.value.lines)
  }

  lemma SameKept(lines: seq<Line>)
    ensures Similar(lines, lines)
  {
  }

  lemma {:induction false} ValueKept(raw: seq<string>, lines: seq<Line>, pos: nat, rest: string, ln: Line, indent: nat)
    requires |raw| == |lines| && pos <= |lines|
    ensures Kept(lines, Value(raw, lines, pos, rest, ln, indent))
    decreases |lines| - pos, TextLength(lines, pos), 4
  {
    hide IsDash, BlockBody, Join, DropEmptyTail, Scalar, Flow, Block, SeqBlock, Similar;
    SameKept(lines);
    if rest == [] {
      var p := Skip(lines, pos);
      if p < |lines| && lines[p].indent > indent {
        BlockKept(raw, lines, p, lines[p].indent);
      } else if p < |lines| && lines[p].indent == indent && IsDash(lines[p].text) && !IsDash(ln.text) {
        SeqBlockKept(raw, lines, p, indent, lines[p].no);
      }
    }
  }

  lemma {:induction false} BlockKept(raw: seq<string>, lines: seq<Line>, pos: nat, indent: nat)
    requires |raw| == |lines| && pos < |lines|
    ensures Kept(lines, Block(raw, lines, pos, indent))
    decreases |lines| - pos, TextLength(lines, pos), 3
  {
    hide MapBlock, SeqBlock, Similar;
    SeqBlockKept(raw, lines, pos, indent, lines[pos].no);
    MapBlockKept(raw, lines, pos, indent, lines[pos].no);
  }

  lemma {:induction false} MapBlockKept(raw: seq<string>, lines: seq<Line>, pos: nat, indent: nat, no: nat)
    requires |raw| == |lines| && pos <= |lines|
    ensures Kept(lines, MapBlock(raw, lines, pos, indent, no))
    decreases |lines| - pos, TextLength(lines, pos), 2
  {
    hide MapTail, Similar;
    MapTailKept(raw, lines, pos, indent, []);
  }

  lemma {:induction false} SeqBlockKept(raw: seq<string>, lines: seq<Line>, pos: nat, indent: nat, no: nat)
    requires |raw| == |lines| && pos <= |lines|
    ensures Kept(lines, SeqBlock(raw, lines, pos, indent, no))
    decreases |lines| - pos, TextLength(lines, pos), 2
  {
    hide SeqTail, Similar;
    SeqTailKept(raw, lines, pos, indent, []);
  }

  lemma {:induction false} MapTailKept(raw: seq<string>, lines: seq<Line>, pos: nat, indent: nat, children: seq<Node>)
    requires |raw| == |lines| && pos <= |lines|
    ensures Kept(lines, MapTail(raw, lines, pos, indent, children))
    decreases |lines| - pos, TextLength(lines, pos), 0
  {
    hide IsDash, SplitKey, Value, Similar, HasKey;
    SameKept(lines);
    var p := Skip(lines, pos);
    if p < |lines| && lines[p].indent == indent && !IsDash(lines[p].text) {
      var ln := lines[p];
      var kv := SplitKey(ln.text);
      if kv.Some? {
        var r := Value(raw, lines, p + 1, kv.value.1, ln, indent);
        ValueKept(raw, lines, p + 1, kv.value.1, ln, indent);
        if r.Ok? && !HasKey(children, kv.value.0) {
          var node := r.value.got.(key := Some(kv.value.0), line := ln.no, comment := ln.comment);
          MapTailKept(raw, r.value.lines, r.value.pos, indent, children + [node]);
          var last := MapTail(raw, r.value.lines, r.value.pos, indent, children + [node]);
          if last.Ok? { SimilarTrans(lines, r.value.lines, last.value.lines); }
        }
      }
    }
  }

  lemma {:induction false} SeqTailKept(raw: seq<string>, lines: seq<Line>, pos: nat, indent: nat, items: seq<Node>)
    requires |raw| == |lines| && pos <= |lines|
    ensures Kept(lines, SeqTail(raw, lines, pos, indent, items))
    decreases |lines| - pos, TextLength(lines, pos), 1
  {
    hide IsDash, Item, Similar;
    SameKept(lines);
    var p := Skip(lines, pos);
    if p < |lines| && lines[p].indent == indent && IsDash(lines[p].text) {
      ItemKept(raw, lines, p, indent);
      var r := Item(raw, lines, p, indent);
      if r.Ok? {
        SeqTailKept(raw, r.value.lines, r.value.pos, indent, items + [r.value.got]);
        var last := SeqTail(raw, r.value.lines, r.value.pos, indent, items + [r.value.got]);
        if last.Ok? { SimilarTrans(lines, r.value.lines, last.value.lines); }
      }
    }
  }

  lemma Rewritten(lines: seq<Line>, pos: nat, line: Line)
    requires pos < |lines| && SameLine(lines[pos], line)
    ensures Similar(lines, lines[pos := line])
  {
    hide IsDash, OpensMap, AfterDash;
  }

  lemma DashRewrites(ln: Line, column: nat)
    requires IsDash(ln.text) && OpensMap(AfterDash(ln.text))
    ensures SameLine(ln, Line(ln.no, column, AfterDash(ln.text), ln.comment))
  {
    hide IsDash, OpensMap, AfterDash;
    assert Rewrites(AfterDash(ln.text), AfterDash(ln.text));
  }

  /** A lone dash is no `key: value`. */
  lemma NoKeyAfterDash(text: string)
    requires LoneDash(text)
    ensures !OpensMap(text)
  {
    var after := text[1..];
    assert forall i :: 0 <= i < |after| ==> IsSpace(after[i]);
    assert forall i :: 0 < i < |text| ==> text[i] == after[i - 1];
    assert Find(text, ':', 0).None?;
  }

  lemma {:induction false} ItemKept(raw: seq<string>, lines: seq<Line>, pos: nat, indent: nat)
    requires |raw| == |lines| && pos < |lines| && IsDash(lines[pos].text)
    ensures Kept(lines, Item(raw, lines, pos, indent))
    decreases |lines| - pos, TextLength(lines, pos), 0
  {
    hide OpensMap, Value, MapBlock, Similar, AfterDash, SameLine;
    var ln := lines[pos];
    var rest := AfterDash(ln.text);
    if OpensMap(rest) {
      var column := indent + (|ln.text| - |rest|);
      var line := Line(ln.no, column, rest, ln.comment);
      DashRewrites(ln, column);
      Rewritten(lines, pos, line);
      MapBlockKept(raw, lines[pos := line], pos, column, ln.no);
      var r := MapBlock(raw, lines[pos := line], pos, column, ln.no);
      if r.Ok? { SimilarTrans(lines, lines[pos := line], r.value.lines); }
    } else {
      ValueKept(raw, lines, pos + 1, rest, ln, indent);
    }
  }

  /** Line `i` of the buffer is line `i + 1` of the text. */
  ghost predicate Numbered(lines: seq<Line>) {
    forall i :: 0 <= i < |lines| ==> lines[i].no == i + 1
  }

  lemma StillNumbered(before: seq<Line>, after: seq<Line>)
    requires Similar(before, after) && Numbered(before)
    ensures Numbered(after)
  {
    hide Rewrites;
    forall i | 0 <= i < |after|
      ensures after[i].no == i + 1
    {
      assert SameLine(before[i], after[i]);
    }
  }

  // ---- every line with text becomes a node or a line of a block scalar's text

  ghost predicate BodyLine(raw: seq<string>, n: Node, i: nat, indent: nat, sep: string) {
    n.value.Some? && n.line <= |raw| &&
    var (end, body, first) := BlockBody(raw, n.line, indent, None, [], 0);
    n.line <= i < end && n.value.value == Join(DropEmptyTail(body), sep)
  }

  /** `n` is a block scalar, and line `i` one of the lines its text is joined from. */
  ghost predicate InBody(raw: seq<string>, n: Node, i: nat) {
    exists indent: nat, sep :: BodyLine(raw, n, i, indent, sep)
  }

  /** Line `i` became a part of `n`: of its text, or of a node in it. */
  ghost predicate Inner(raw: seq<string>, n: Node, i: nat)
    decreases n, 0
  {
    || InBody(raw, n, i)
    || (exists k :: 0 <= k < |n.children| && Became(raw, n.children[k], i))
    || (exists k :: 0 <= k < |n.items| && Became(raw, n.items[k], i))
  }

  /** Line `i` is the line of `n`, or became a part of it. */
  ghost predicate Became(raw: seq<string>, n: Node, i: nat)
    decreases n, 1
  {
    n.line == i + 1 || Inner(raw, n, i)
  }

  ghost predicate AnyBecame(raw: seq<string>, nodes: seq<Node>, i: nat) {
    exists k :: 0 <= k < |nodes| && Became(raw, nodes[k], i)
  }

  /** The line holds more than a lone dash. */
  ghost predicate HasText(lines: seq<Line>, i: nat) {
    i < |lines| && lines[i].text != "" && !LoneDash(lines[i].text)
  }

  lemma SameText(before: seq<Line>, after: seq<Line>)
    requires Similar(before, after)
    ensures forall i: nat :: HasText(before, i) <==> HasText(after, i)
  {
    hide LoneDash, Rewrites;
    forall i: nat | i < |before|
      ensures HasText(before, i) <==> HasText(after, i)
    {
      assert SameLine(before[i], after[i]);
      RewritesShape(before[i].text, after[i].text);
    }
  }

  lemma {:induction false} RelabelInner(raw: seq<string>, n: Node, m: Node, i: nat)
    requires m.children == n.children && m.items == n.items && m.value == n.value
    requires (m.line == n.line || n.value.None?) && Inner(raw, n, i)
    ensures Inner(raw, m, i)
  {
    hide BlockBody, Join, DropEmptyTail, Became;
    if InBody(raw, n, i) {
      var indent: nat, sep :| BodyLine(raw, n, i, indent, sep);
      assert BodyLine(raw, m, i, indent, sep);
    }
  }

  /** The node holds every line with text of the stretch. */
  ghost predicate Holds(raw: seq<string>, lines: seq<Line>, n: Node, from: nat, to: nat) {
    forall i :: from <= i < to && HasText(lines, i) ==> Inner(raw, n, i)
  }

  ghost predicate HoldAll(raw: seq<string>, lines: seq<Line>, nodes: seq<Node>, from: nat, to: nat) {
    forall i :: from <= i < to && HasText(lines, i) ==> AnyBecame(raw, nodes, i)
  }

  lemma {:induction false} ValueHolds(raw: seq<string>, lines: seq<Line>, pos: nat, rest: string, ln: Line, indent: nat)
    requires |raw| == |lines| && pos <= |lines| && Numbered(lines) && ln.no == pos
    ensures var r := Value(raw, lines, pos, rest, ln, indent);
      r.Ok? ==> Holds(raw, lines, r.value.got, pos, r.value.pos) && (r.value.got.line == ln.no || (rest == [] && r.value.got.value.None?))
    decreases |lines| - pos, TextLength(lines, pos), 4
  {
    hide IsDash, BlockBody, Join, DropEmptyTail, Scalar, Flow, Block, SeqBlock, Inner, LoneDash;
    var r := Value(raw, lines, pos, rest, ln, indent);
    if rest == [] {
      var p := Skip(lines, pos);
      if p < |lines| && lines[p].indent > indent {
        BlockHolds(raw, lines, p, lines[p].indent);
      } else if p < |lines| && lines[p].indent == indent && IsDash(lines[p].text) && !IsDash(ln.text) {
        SeqBlockHolds(raw, lines, p, indent, lines[p].no);
      }
    } else if r.Ok? && IsBlockScalar(rest) {
      BodyHolds(raw, lines, pos, rest, ln, indent);
    } else if rest[0] == '[' || rest[0] == '{' {
      FlowLine(rest, ln.no);
    }
  }

  lemma FlowLine(s: string, no: nat)
    requires s != [] && (s[0] == '[' || s[0] == '{')
    ensures Flow(s, no).Ok? ==> Flow(s, no).value.line == no
  {
    hide FlowScan, Strip, FlowItems, FlowEntries;
  }

  lemma {:induction false} BodyHolds(raw: seq<string>, lines: seq<Line>, pos: nat, rest: string, ln: Line, indent: nat)
    requires |raw| == |lines| && pos <= |lines| && ln.no == pos && IsBlockScalar(rest)
    requires Value(raw, lines, pos, rest, ln, indent).Ok?
    ensures var r := Value(raw, lines, pos, rest, ln, indent);
      Holds(raw, lines, r.value.got, pos, r.value.pos) && r.value.got.line == ln.no
  {
    hide BlockBody, Join, DropEmptyTail, LoneDash, HasText;
    var n := Value(raw, lines, pos, rest, ln, indent).value.got;
    var (end, body, first) := BlockBody(raw, pos, indent, None, [], 0);
    forall i | pos <= i < end
      ensures Inner(raw, n, i)
    {
      assert BodyLine(raw, n, i, indent, if rest[0] == '|' then "\n" else " ");
    }
  }

  lemma {:induction false} BlockHolds(raw: seq<string>, lines: seq<Line>, pos: nat, indent: nat)
    requires |raw| == |lines| && pos < |lines| && Numbered(lines)
    ensures var r := Block(raw, lines, pos, indent);
      r.Ok? ==> Holds(raw, lines, r.value.got, pos, r.value.pos) && r.value.got.value.None?
    decreases |lines| - pos, TextLength(lines, pos), 3
  {
    hide MapBlock, SeqBlock, Holds;
    SeqBlockHolds(raw, lines, pos, indent, lines[pos].no);
    MapBlockHolds(raw, lines, pos, indent, lines[pos].no);
  }

  lemma {:induction false} MapBlockHolds(raw: seq<string>, lines: seq<Line>, pos: nat, indent: nat, no: nat)
    requires |raw| == |lines| && pos <= |lines| && Numbered(lines)
    ensures var r := MapBlock(raw, lines, pos, indent, no);
      r.Ok? ==> Holds(raw, lines, r.value.got, pos, r.value.pos) && r.value.got.value.None?
    decreases |lines| - pos, TextLength(lines, pos), 2
  {
    hide MapTail, HasText, Became, InBody;
    MapTailHolds(raw, lines, pos, indent, []);
  }

  lemma {:induction false} SeqBlockHolds(raw: seq<string>, lines: seq<Line>, pos: nat, indent: nat, no: nat)
    requires |raw| == |lines| && pos <= |lines| && Numbered(lines)
    ensures var r := SeqBlock(raw, lines, pos, indent, no);
      r.Ok? ==> Holds(raw, lines, r.value.got, pos, r.value.pos) && r.value.got.value.None?
    decreases |lines| - pos, TextLength(lines, pos), 2
  {
    hide SeqTail, HasText, Became, InBody;
    SeqTailHolds(raw, lines, pos, indent, []);
  }

  /** What is read first and what is read then hold the whole stretch. */
  lemma {:induction false} HoldMore(raw: seq<string>, lines: seq<Line>, lines': seq<Line>, before: seq<Node>, node: Node, got: seq<Node>,
                 pos: nat, p: nat, mid: nat, end: nat)
    requires pos <= p <= mid <= end && p < |lines| && (forall i :: pos <= i < p ==> lines[i].text == "")
    requires Similar(lines, lines') && before + [node] <= got
    requires forall i :: p <= i < mid && HasText(lines, i) ==> Became(raw, node, i)
    requires HoldAll(raw, lines', got, mid, end)
    ensures HoldAll(raw, lines, got, pos, end) && before <= got
  {
    SameText(lines, lines');
    hide Became, LoneDash, Similar;
    assert got[|before|] == (before + [node])[|before|] == node;
  }

  lemma {:induction false} MapTailHolds(raw: seq<string>, lines: seq<Line>, pos: nat, indent: nat, children: seq<Node>)
    requires |raw| == |lines| && pos <= |lines| && Numbered(lines)
    ensures var r := MapTail(raw, lines, pos, indent, children);
      r.Ok? ==> children <= r.value.got && HoldAll(raw, lines, r.value.got, pos, r.value.pos)
    decreases |lines| - pos, TextLength(lines, pos), 0
  {
    hide IsDash, SplitKey, Value, HasKey, Similar, AnyBecame, LoneDash, Inner, Became;
    var p := Skip(lines, pos);
    if p < |lines| && lines[p].indent == indent && !IsDash(lines[p].text) {
      hide HoldAll;
      var ln := lines[p];
      var kv := SplitKey(ln.text);
      if kv.Some? {
        var r := Value(raw, lines, p + 1, kv.value.1, ln, indent);
        ValueHolds(raw, lines, p + 1, kv.value.1, ln, indent);
        ValueKept(raw, lines, p + 1, kv.value.1, ln, indent);
        if r.Ok? && !HasKey(children, kv.value.0) {
          var node := r.value.got.(key := Some(kv.value.0), line := ln.no, comment := ln.comment);
          EntryHolds(raw, lines, r.value.got, node, p, r.value.pos);
          StillNumbered(lines, r.value.lines);
          MapTailHolds(raw, r.value.lines, r.value.pos, indent, children + [node]);
          var last := MapTail(raw, r.value.lines, r.value.pos, indent, children + [node]);
          if last.Ok? {
            HoldMore(raw, lines, r.value.lines, children, node, last.value.got, pos, p, r.value.pos, last.value.pos);
          }
        }
      }
    }
  }

  /** An entry or item on line `p` holds that line and what its value holds. */
  lemma EntryHolds(raw: seq<string>, lines: seq<Line>, n: Node, m: Node, p: nat, end: nat)
    requires m.children == n.children && m.items == n.items && m.value == n.value && m.line == p + 1
    requires (n.line == p + 1 || n.value.None?) && Holds(raw, lines, n, p + 1, end)
    ensures forall i :: p <= i < end && HasText(lines, i) ==> Became(raw, m, i)
  {
    hide Inner, HasText;
    forall i | p < i < end && HasText(lines, i)
      ensures Became(raw, m, i)
    {
      RelabelInner(raw, n, m, i);
    }
  }

  lemma {:induction false} SeqTailHolds(raw: seq<string>, lines: seq<Line>, pos: nat, indent: nat, items: seq<Node>)
    requires |raw| == |lines| && pos <= |lines| && Numbered(lines)
    ensures var r := SeqTail(raw, lines, pos, indent, items);
      r.Ok? ==> items <= r.value.got && HoldAll(raw, lines, r.value.got, pos, r.value.pos)
    decreases |lines| - pos, TextLength(lines, pos), 1
  {
    hide IsDash, Item, Similar, AnyBecame, LoneDash, Inner, Became;
    var p := Skip(lines, pos);
    if p < |lines| && lines[p].indent == indent && IsDash(lines[p].text) {
      hide HoldAll;
      ItemHolds(raw, lines, p, indent);
      ItemKept(raw, lines, p, indent);
      var r := Item(raw, lines, p, indent);
      if r.Ok? {
        StillNumbered(lines, r.value.lines);
        SeqTailHolds(raw, r.value.lines, r.value.pos, indent, items + [r.value.got]);
        var last := SeqTail(raw, r.value.lines, r.value.pos, indent, items + [r.value.got]);
        if last.Ok? {
          HoldMore(raw, lines, r.value.lines, items, r.value.got, last.value.got, pos, p, r.value.pos, last.value.pos);
        }
      }
    }
  }

  lemma {:induction false} ItemHolds(raw: seq<string>, lines: seq<Line>, pos: nat, indent: nat)
    requires |raw| == |lines| && pos < |lines| && IsDash(lines[pos].text) && Numbered(lines)
    ensures var r := Item(raw, lines, pos, indent);
      r.Ok? ==> forall i :: pos <= i < r.value.pos && HasText(lines, i) ==> Became(raw, r.value.got, i)
    decreases |lines| - pos, TextLength(lines, pos), 0
  {
    hide OpensMap, Value, MapBlock, Similar, AfterDash, SameLine, Inner;
    var ln := lines[pos];
    var rest := AfterDash(ln.text);
    if OpensMap(rest) {
      var column := indent + (|ln.text| - |rest|);
      var line := Line(ln.no, column, rest, ln.comment);
      DashRewrites(ln, column);
      Rewritten(lines, pos, line);
      SameText(lines, lines[pos := line]);
      MapBlockHolds(raw, lines[pos := line], pos, column, ln.no);
    } else {
      var r := Value(raw, lines, pos + 1, rest, ln, indent);
      ValueHolds(raw, lines, pos + 1, rest, ln, indent);
      if r.Ok? {
        var node := r.value.got.(comment := ln.comment);
        if r.value.got.line == ln.no {
          EntryHolds(raw, lines, r.value.got, node, pos, r.value.pos);
        } else {
          forall i | pos < i < r.value.pos && HasText(lines, i)
            ensures Became(raw, node, i)
          {
            RelabelInner(raw, r.value.got, node, i);
          }
        }
      }
    }
  }

  /** Every line of a text that parses becomes, unless it is empty or a lone dash, the line of a node of the
      tree or a line of a block scalar's text. */
  lemma {:induction false} ParsedLines(raw: seq<string>, i: nat)
    requires Parse(raw).Ok? && Scan(raw, 1).Ok? && HasText(Scan(raw, 1).value, i)
    ensures Became(raw, Parse(raw).value, i)
  {
    hide Block, Inner, Scan, Similar, LoneDash;
    var lines := Scan(raw, 1).value;
    var p := Skip(lines, 0);
    if p < |lines| {
      BlockHolds(raw, lines, p, lines[p].indent);
      BlockKept(raw, lines, p, lines[p].indent);
      var r := Block(raw, lines, p, lines[p].indent).value;
      SameText(lines, r.lines);
    }
  }
}
