/** What the YAML reader guarantees of every text. */
module YamlProperties {
  import opened Wrappers
  import opened Text
  import opened Yaml
  import opened YamlLines

  // ---- block mappings have distinct keys

  ghost predicate DistinctKeys(children: seq<Node>) {
    forall i, j :: 0 <= i < j < |children| ==> children[i].key != children[j].key
  }

  /** Each entry stands on a later line than the one before it, as in a block mapping. */
  ghost predicate Descending(children: seq<Node>) {
    forall i, j :: 0 <= i < j < |children| ==> children[i].line < children[j].line
  }

  /** All entries stand on one line, as in a flow mapping. */
  ghost predicate OneLine(children: seq<Node>) {
    forall i, j :: 0 <= i < j < |children| ==> children[i].line == children[j].line
  }

  ghost predicate BlockKeys(children: seq<Node>) {
    DistinctKeys(children) && Descending(children)
  }

  /** In `n` and everything under it, a mapping's entries stand on one line, or on one line each with
      distinct keys. */
  ghost predicate KeysOk(n: Node) {
    && (BlockKeys(n.children) || OneLine(n.children))
    && (forall i :: 0 <= i < |n.children| ==> KeysOk(n.children[i]))
    && (forall i :: 0 <= i < |n.items| ==> KeysOk(n.items[i]))
  }

  ghost predicate AllKeysOk(nodes: seq<Node>) {
    forall i :: 0 <= i < |nodes| ==> KeysOk(nodes[i])
  }

  /** Renaming, moving or commenting a node leaves its children alone. */
  lemma {:induction false} Relabel(n: Node, m: Node)
    requires KeysOk(n) && m.children == n.children && m.items == n.items
    ensures KeysOk(m)
  {
  }

  lemma {:induction false} FlowItemsOk(parts: seq<string>, no: nat)
    ensures FlowItems(parts, no).Ok? ==> AllKeysOk(FlowItems(parts, no).value)
  {
    hide Scalar;
    if parts != [] { FlowItemsOk(parts[1..], no); }
  }

  lemma {:induction false} FlowEntriesOk(parts: seq<string>, no: nat)
    ensures FlowEntries(parts, no).Ok? ==>
      AllKeysOk(FlowEntries(parts, no).value)
      && forall i :: 0 <= i < |FlowEntries(parts, no).value| ==> FlowEntries(parts, no).value[i].line == no
  {
    hide Scalar, SplitKey;
    if parts != [] { FlowEntriesOk(parts[1..], no); }
  }

  lemma FlowOk(s: string, no: nat)
    requires s != [] && (s[0] == '[' || s[0] == '{')
    ensures Flow(s, no).Ok? ==> KeysOk(Flow(s, no).value)
  {
    hide FlowScan, Strip, FlowItems, FlowEntries;
    var (parts, cur, end) := FlowScan(s, 0, 0, None, [], "");
    var all := if Strip(cur) != [] then parts + [Strip(cur)] else parts;
    FlowItemsOk(all, no);
    FlowEntriesOk(all, no);
  }

  lemma {:induction false} ValueKeys(raw: seq<string>, lines: seq<Line>, pos: nat, rest: string, ln: Line, indent: nat)
    requires |raw| == |lines| && pos <= |lines| && Numbered(lines)
    ensures Value(raw, lines, pos, rest, ln, indent).Ok? ==> KeysOk(Value(raw, lines, pos, rest, ln, indent).value.got)
    decreases |lines| - pos, TextLength(lines, pos), 4
  {
    hide IsDash, BlockBody, Join, DropEmptyTail, Scalar, Flow, Block, SeqBlock;
    if rest == [] {
      var p := Skip(lines, pos);
      if p < |lines| && lines[p].indent > indent {
        BlockIsOk(raw, lines, p, lines[p].indent);
      } else if p < |lines| && lines[p].indent == indent && IsDash(lines[p].text) && !IsDash(ln.text) {
        SeqBlockKeys(raw, lines, p, indent, lines[p].no);
      }
    } else if rest[0] == '[' || rest[0] == '{' {
      FlowOk(rest, ln.no);
    }
  }

  lemma {:induction false} BlockIsOk(raw: seq<string>, lines: seq<Line>, pos: nat, indent: nat)
    requires |raw| == |lines| && pos < |lines| && Numbered(lines)
    ensures Block(raw, lines, pos, indent).Ok? ==> KeysOk(Block(raw, lines, pos, indent).value.got)
    decreases |lines| - pos, TextLength(lines, pos), 3
  {
    hide MapBlock, SeqBlock, Similar, KeysOk;
    SeqBlockKeys(raw, lines, pos, indent, lines[pos].no);
    MapBlockKeys(raw, lines, pos, indent, lines[pos].no);
  }

  /** A block mapping has distinct keys, each entry on a later line than the one before. */
  lemma {:induction false} MapBlockKeys(raw: seq<string>, lines: seq<Line>, pos: nat, indent: nat, no: nat)
    requires |raw| == |lines| && pos <= |lines| && Numbered(lines)
    ensures MapBlock(raw, lines, pos, indent, no).Ok? ==>
      var n := MapBlock(raw, lines, pos, indent, no).value.got; KeysOk(n) && BlockKeys(n.children)
    decreases |lines| - pos, TextLength(lines, pos), 2
  {
    hide MapTail;
    MapTailKeys(raw, lines, pos, indent, []);
  }

  lemma {:induction false} SeqBlockKeys(raw: seq<string>, lines: seq<Line>, pos: nat, indent: nat, no: nat)
    requires |raw| == |lines| && pos <= |lines| && Numbered(lines)
    ensures SeqBlock(raw, lines, pos, indent, no).Ok? ==> KeysOk(SeqBlock(raw, lines, pos, indent, no).value.got)
    decreases |lines| - pos, TextLength(lines, pos), 2
  {
    hide SeqTail;
    SeqTailKeys(raw, lines, pos, indent, []);
  }

  ghost predicate Above(children: seq<Node>, pos: nat) {
    forall i :: 0 <= i < |children| ==> children[i].line <= pos
  }

  lemma {:induction false} AddEntry(children: seq<Node>, node: Node, key: string, p: nat)
    requires AllKeysOk(children) && BlockKeys(children) && Above(children, p) && !HasKey(children, key)
    requires KeysOk(node) && node.key == Some(key) && node.line == p + 1
    ensures AllKeysOk(children + [node]) && BlockKeys(children + [node]) && Above(children + [node], p + 1)
  {
    hide KeysOk;
  }

  lemma {:induction false} MapTailKeys(raw: seq<string>, lines: seq<Line>, pos: nat, indent: nat, children: seq<Node>)
    requires |raw| == |lines| && pos <= |lines| && Numbered(lines)
    requires AllKeysOk(children) && BlockKeys(children) && Above(children, pos)
    ensures MapTail(raw, lines, pos, indent, children).Ok? ==>
      var c := MapTail(raw, lines, pos, indent, children).value.got; AllKeysOk(c) && BlockKeys(c)
    decreases |lines| - pos, TextLength(lines, pos), 0
  {
    hide IsDash, SplitKey, Value, KeysOk, AllKeysOk, BlockKeys, HasKey, Similar;
    var p := Skip(lines, pos);
    if p < |lines| && lines[p].indent == indent && !IsDash(lines[p].text) {
      var ln := lines[p];
      var kv := SplitKey(ln.text);
      if kv.Some? {
        var r := Value(raw, lines, p + 1, kv.value.1, ln, indent);
        ValueKeys(raw, lines, p + 1, kv.value.1, ln, indent);
        if r.Ok? && !HasKey(children, kv.value.0) {
          var node := r.value.got.(key := Some(kv.value.0), line := ln.no, comment := ln.comment);
          Relabel(r.value.got, node);
          AddEntry(children, node, kv.value.0, p);
          ValueKept(raw, lines, p + 1, kv.value.1, ln, indent);
          StillNumbered(lines, r.value.lines);
          MapTailKeys(raw, r.value.lines, r.value.pos, indent, children + [node]);
        }
      }
    }
  }

  lemma {:induction false} SeqTailKeys(raw: seq<string>, lines: seq<Line>, pos: nat, indent: nat, items: seq<Node>)
    requires |raw| == |lines| && pos <= |lines| && AllKeysOk(items) && Numbered(lines)
    ensures SeqTail(raw, lines, pos, indent, items).Ok? ==> AllKeysOk(SeqTail(raw, lines, pos, indent, items).value.got)
    decreases |lines| - pos, TextLength(lines, pos), 1
  {
    hide IsDash, Item, KeysOk, Similar;
    var p := Skip(lines, pos);
    if p < |lines| && lines[p].indent == indent && IsDash(lines[p].text) {
      ItemKeys(raw, lines, p, indent);
      var r := Item(raw, lines, p, indent);
      if r.Ok? {
        ItemKept(raw, lines, p, indent);
        StillNumbered(lines, r.value.lines);
        SeqTailKeys(raw, r.value.lines, r.value.pos, indent, items + [r.value.got]);
      }
    }
  }

  lemma {:induction false} ItemKeys(raw: seq<string>, lines: seq<Line>, pos: nat, indent: nat)
    requires |raw| == |lines| && pos < |lines| && IsDash(lines[pos].text) && Numbered(lines)
    ensures Item(raw, lines, pos, indent).Ok? ==> KeysOk(Item(raw, lines, pos, indent).value.got)
    decreases |lines| - pos, TextLength(lines, pos), 0
  {
    hide OpensMap, Value, MapBlock, KeysOk;
    var ln := lines[pos];
    var rest := AfterDash(ln.text);
    if OpensMap(rest) {
      var column := indent + (|ln.text| - |rest|);
      MapBlockKeys(raw, lines[pos := Line(ln.no, column, rest, ln.comment)], pos, column, ln.no);
    } else {
      var r := Value(raw, lines, pos + 1, rest, ln, indent);
      ValueKeys(raw, lines, pos + 1, rest, ln, indent);
      if r.Ok? { Relabel(r.value.got, r.value.got.(comment := ln.comment)); }
    }
  }

  /** In every tree the reader returns, a mapping whose entries do not all stand on one line, which every block
      mapping of two or more is, has distinct keys. */
  lemma ParsedKeys(raw: seq<string>)
    ensures Parse(raw).Ok? ==> KeysOk(Parse(raw).value)
  {
    hide Block, KeysOk;
    var lines := Scan(raw, 1);
    if lines.Ok? {
      var p := Skip(lines.value, 0);
      if p < |lines.value| {
        BlockIsOk(raw, lines.value, p, lines.value[p].indent);
      } else {
        EmptyMapKeys();
      }
    }
  }

  lemma EmptyMapKeys()
    ensures KeysOk(Node(1, None, None, None, MapNode, [], [], 0))
  {
  }

  // ---- where the reader falls short of its description

  /** The tab test looks only at the leading spaces, so it never fires: a line indented by a tab is
      never refused for it. */
  lemma {:induction false} TabIndentNeverRefused(no: nat, raw: string)
    ensures '\t' !in raw[..Indent(raw)]
    ensures ScanLine(no, raw) == Unsupported(no) <==>
      RStrip(raw[Indent(raw)..]) == "---" || RStrip(raw[Indent(raw)..]) == "..."
  {
    hide RStrip, StripComment;
    assert forall i :: 0 <= i < Indent(raw) ==> raw[..Indent(raw)][i] == ' ';
  }

  /** A scalar text `_scalar` reads: not empty, its quotes closed, and no anchor, alias or tag. */
  predicate ScalarReads(s: string) {
    && s != [] && s[0] != '&' && s[0] != '*' && s[0] != '!'
    && (s[0] == '"' || s[0] == '\'' ==> |s| >= 2 && s[|s| - 1] == s[0])
  }

  lemma ScalarReadsExactly(s: string, no: nat)
    ensures Scalar(s, no).Ok? <==> ScalarReads(s)
    ensures Scalar(s, no).Crash? <==> s == []
  {
  }

  /** Some entry has a key and no value, and every entry before it a key and a value that reads. */
  predicate HasEmptyValue(parts: seq<string>) {
    parts != [] && SplitKey(parts[0]).Some?
    && (SplitKey(parts[0]).value.1 == "" || (ScalarReads(SplitKey(parts[0]).value.1) && HasEmptyValue(parts[1..])))
  }

  lemma {:induction false} FlowEntriesCrash(parts: seq<string>, no: nat)
    ensures FlowEntries(parts, no).Crash? <==> HasEmptyValue(parts)
  {
    hide SplitKey, Scalar, ScalarReads;
    if parts != [] {
      if SplitKey(parts[0]).Some? { ScalarReadsExactly(SplitKey(parts[0]).value.1, no); }
      FlowEntriesCrash(parts[1..], no);
    }
  }

  lemma {:induction false} FlowItemsNeverCrash(parts: seq<string>, no: nat)
    ensures !FlowItems(parts, no).Crash?
  {
    if parts != [] { FlowItemsNeverCrash(parts[1..], no); }
  }

  /** The parts of a flow collection as its scan finds them. */
  function FlowParts(s: string): seq<string> {
    var (parts, cur, end) := FlowScan(s, 0, 0, None, [], "");
    if Strip(cur) != [] then parts + [Strip(cur)] else parts
  }

  /** A flow mapping, closed by `}` with only white space after it, one of whose entries has a key and no
      value while all before it read. */
  predicate FlowCrashes(s: string) {
    s != [] && s[0] == '{' &&
    var end := FlowScan(s, 0, 0, None, [], "").2;
    end.Some? && end.value < |s| && s[end.value] == '}' && Strip(s[end.value + 1..]) == [] && HasEmptyValue(FlowParts(s))
  }

  /** `_flow` raises IndexError on exactly these texts. */
  lemma FlowCrashExactly(s: string, no: nat)
    requires s != [] && (s[0] == '[' || s[0] == '{')
    ensures Flow(s, no).Crash? <==> FlowCrashes(s)
  {
    hide FlowScan, Strip, FlowItems, FlowEntries, HasEmptyValue;
    FlowItemsNeverCrash(FlowParts(s), no);
    FlowEntriesCrash(FlowParts(s), no);
  }

  /** What stands on a line after its dashes and its key, if it has a value part. */
  function ValuePart(text: string): Option<string>
    decreases |text|
  {
    if IsDash(text) then
      var rest := AfterDash(text);
      if OpensMap(rest) then ValuePart(rest) else Some(rest)
    else if SplitKey(text).Some? then Some(SplitKey(text).value.1)
    else None
  }

  /** The line's value is no flow mapping with an empty value. */
  predicate TextSafe(text: string) {
    ValuePart(text).Some? ==> !FlowCrashes(ValuePart(text).value)
  }

  ghost predicate Safe(lines: seq<Line>) {
    forall i :: 0 <= i < |lines| ==> TextSafe(lines[i].text)
  }

  lemma EntrySafe(text: string)
    requires TextSafe(text) && !IsDash(text) && SplitKey(text).Some?
    ensures !FlowCrashes(SplitKey(text).value.1)
  {
    hide FlowCrashes, SplitKey;
  }

  lemma DashSafe(text: string)
    requires TextSafe(text) && IsDash(text)
    ensures if OpensMap(AfterDash(text)) then TextSafe(AfterDash(text)) else !FlowCrashes(AfterDash(text))
  {
    hide FlowCrashes, SplitKey, OpensMap, AfterDash;
  }

  lemma RewriteSafe(lines: seq<Line>, pos: nat, line: Line)
    requires Safe(lines) && pos < |lines| && TextSafe(line.text)
    ensures Safe(lines[pos := line])
  {
    hide TextSafe;
  }

  lemma {:induction false} ValueSafe(raw: seq<string>, lines: seq<Line>, pos: nat, rest: string, ln: Line, indent: nat)
    requires |raw| == |lines| && pos <= |lines| && Safe(lines) && !FlowCrashes(rest)
    ensures var r := Value(raw, lines, pos, rest, ln, indent); !r.Crash? && (r.Ok? ==> Safe(r.value.lines))
    decreases |lines| - pos, TextLength(lines, pos), 4
  {
    hide IsDash, BlockBody, Join, DropEmptyTail, Flow, Block, SeqBlock, Safe, FlowCrashes;
    if rest == [] {
      var p := Skip(lines, pos);
      if p < |lines| && lines[p].indent > indent {
        BlockSafe(raw, lines, p, lines[p].indent);
      } else if p < |lines| && lines[p].indent == indent && IsDash(lines[p].text) && !IsDash(ln.text) {
        SeqBlockSafe(raw, lines, p, indent, lines[p].no);
      }
    } else if rest[0] == '[' || rest[0] == '{' {
      FlowCrashExactly(rest, ln.no);
    }
  }

  lemma {:induction false} BlockSafe(raw: seq<string>, lines: seq<Line>, pos: nat, indent: nat)
    requires |raw| == |lines| && pos < |lines| && Safe(lines)
    ensures var r := Block(raw, lines, pos, indent); !r.Crash? && (r.Ok? ==> Safe(r.value.lines))
    decreases |lines| - pos, TextLength(lines, pos), 3
  {
    hide MapBlock, SeqBlock, Safe;
    SeqBlockSafe(raw, lines, pos, indent, lines[pos].no);
    MapBlockSafe(raw, lines, pos, indent, lines[pos].no);
  }

  lemma {:induction false} MapBlockSafe(raw: seq<string>, lines: seq<Line>, pos: nat, indent: nat, no: nat)
    requires |raw| == |lines| && pos <= |lines| && Safe(lines)
    ensures var r := MapBlock(raw, lines, pos, indent, no); !r.Crash? && (r.Ok? ==> Safe(r.value.lines))
    decreases |lines| - pos, TextLength(lines, pos), 2
  {
    hide MapTail, Safe;
    MapTailSafe(raw, lines, pos, indent, []);
  }

  lemma {:induction false} SeqBlockSafe(raw: seq<string>, lines: seq<Line>, pos: nat, indent: nat, no: nat)
    requires |raw| == |lines| && pos <= |lines| && Safe(lines)
    ensures var r := SeqBlock(raw, lines, pos, indent, no); !r.Crash? && (r.Ok? ==> Safe(r.value.lines))
    decreases |lines| - pos, TextLength(lines, pos), 2
  {
    hide SeqTail, Safe;
    SeqTailSafe(raw, lines, pos, indent, []);
  }

  lemma {:induction false} MapTailSafe(raw: seq<string>, lines: seq<Line>, pos: nat, indent: nat, children: seq<Node>)
    requires |raw| == |lines| && pos <= |lines| && Safe(lines)
    ensures var r := MapTail(raw, lines, pos, indent, children); !r.Crash? && (r.Ok? ==> Safe(r.value.lines))
    decreases |lines| - pos, TextLength(lines, pos), 0
  {
    hide IsDash, SplitKey, Value, FlowCrashes, TextSafe, HasKey;
    var p := Skip(lines, pos);
    if p < |lines| && lines[p].indent == indent && !IsDash(lines[p].text) {
      var ln := lines[p];
      var kv := SplitKey(ln.text);
      if kv.Some? {
        assert TextSafe(ln.text);
        EntrySafe(ln.text);
        hide Safe;
        var r := Value(raw, lines, p + 1, kv.value.1, ln, indent);
        ValueSafe(raw, lines, p + 1, kv.value.1, ln, indent);
        if r.Ok? && !HasKey(children, kv.value.0) {
          var node := r.value.got.(key := Some(kv.value.0), line := ln.no, comment := ln.comment);
          MapTailSafe(raw, r.value.lines, r.value.pos, indent, children + [node]);
        }
      }
    }
  }

  lemma {:induction false} SeqTailSafe(raw: seq<string>, lines: seq<Line>, pos: nat, indent: nat, items: seq<Node>)
    requires |raw| == |lines| && pos <= |lines| && Safe(lines)
    ensures var r := SeqTail(raw, lines, pos, indent, items); !r.Crash? && (r.Ok? ==> Safe(r.value.lines))
    decreases |lines| - pos, TextLength(lines, pos), 1
  {
    hide IsDash, Item, Safe;
    var p := Skip(lines, pos);
    if p < |lines| && lines[p].indent == indent && IsDash(lines[p].text) {
      ItemSafe(raw, lines, p, indent);
      var r := Item(raw, lines, p, indent);
      if r.Ok? {
        SeqTailSafe(raw, r.value.lines, r.value.pos, indent, items + [r.value.got]);
      }
    }
  }

  lemma {:induction false} ItemSafe(raw: seq<string>, lines: seq<Line>, pos: nat, indent: nat)
    requires |raw| == |lines| && pos < |lines| && IsDash(lines[pos].text) && Safe(lines)
    ensures var r := Item(raw, lines, pos, indent); !r.Crash? && (r.Ok? ==> Safe(r.value.lines))
    decreases |lines| - pos, TextLength(lines, pos), 0
  {
    hide OpensMap, Value, MapBlock, AfterDash, FlowCrashes, TextSafe;
    var ln := lines[pos];
    var rest := AfterDash(ln.text);
    assert TextSafe(ln.text);
    DashSafe(ln.text);
    hide Safe;
    if OpensMap(rest) {
      var column := indent + (|ln.text| - |rest|);
      var line := Line(ln.no, column, rest, ln.comment);
      RewriteSafe(lines, pos, line);
      MapBlockSafe(raw, lines[pos := line], pos, column, ln.no);
    } else {
      ValueSafe(raw, lines, pos + 1, rest, ln, indent);
    }
  }

  /** The reader fails with anything but `Unsupported` only on a text one of whose lines has, after its
      dashes and key, a flow mapping that `_flow` raises IndexError on. */
  lemma {:induction false} CrashNeedsEmptyFlowValue(raw: seq<string>)
    requires Parse(raw).Crash?
    ensures Scan(raw, 1).Ok? && !Safe(Scan(raw, 1).value)
  {
    hide Block, Safe;
    var lines := Scan(raw, 1);
    if lines.Ok? && Safe(lines.value) {
      var p := Skip(lines.value, 0);
      if p < |lines.value| {
        BlockSafe(raw, lines.value, p, lines.value[p].indent);
      }
    }
  }

  // ---- what is refused

  /** Anchors, aliases and tags are refused where they stand, and so is a deeper line after a value that ends on
      its own line. */
  lemma {:induction false} ValueRefuses(raw: seq<string>, lines: seq<Line>, pos: nat, rest: string, ln: Line, indent: nat)
    requires |raw| == |lines| && pos <= |lines| && rest != []
    ensures rest[0] == '&' || rest[0] == '*' || rest[0] == '!' ==> Value(raw, lines, pos, rest, ln, indent) == Unsupported(ln.no)
    ensures !IsBlockScalar(rest) && pos < |lines| && lines[pos].text != "" && lines[pos].indent > indent ==>
      !Value(raw, lines, pos, rest, ln, indent).Ok?
  {
    hide IsBlockScalar, Flow, Scalar, BlockBody, Block, SeqBlock;
  }

  /** A mapping refuses a deeper line, a line without a key, a merge key, and a key it has already. */
  lemma {:induction false} MapRefuses(raw: seq<string>, lines: seq<Line>, pos: nat, indent: nat, children: seq<Node>)
    requires |raw| == |lines| && pos < |lines| && lines[pos].text != "" && lines[pos].indent >= indent
    requires !IsDash(lines[pos].text) || lines[pos].indent > indent
    ensures lines[pos].indent > indent ==> MapTail(raw, lines, pos, indent, children) == Unsupported(lines[pos].no)
    ensures SplitKey(lines[pos].text).None? ==> MapTail(raw, lines, pos, indent, children) == Unsupported(lines[pos].no)
    ensures SplitKey(lines[pos].text).Some? && SplitKey(lines[pos].text).value.0 == "<<" ==>
      MapTail(raw, lines, pos, indent, children) == Unsupported(lines[pos].no)
    ensures SplitKey(lines[pos].text).Some? && HasKey(children, SplitKey(lines[pos].text).value.0) ==>
      !MapTail(raw, lines, pos, indent, children).Ok?
  {
    hide Value, SplitKey, HasKey, IsDash;
  }
}
