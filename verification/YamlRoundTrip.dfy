/** Printing a tree, its mappings and sequences in block or flow style and its scalars plain or quoted, and
    reading it back. */
module YamlRoundTrip {
  import opened Wrappers
  import opened Text
  import opened Yaml
  import opened YamlInline

  /** A block sequence is indented under its key or stands flush with it. */
  datatype Layout = Indented | Flush | Bracketed

  /** Non-empty mappings and sequences, scalars and nulls, with the style each is written in. */
  datatype Tree =
    | Null
    | Leaf(text: string, quote: Quote)
    | Mapping(entries: Entries, flow: bool)
    | Sequence(items: Items, layout: Layout)
  datatype Entries = LastEntry(key: string, value: Tree) | Entry(key: string, value: Tree, rest: Entries)
  datatype Items = LastItem(item: Tree) | Item(item: Tree, rest: Items)

  // ---- plain keys and scalars

  predicate IsLineBreak(c: char) {
    '\n' <= c <= '\r' || '\U{001C}' <= c <= '\U{001E}' || c == '\U{0085}' || c == '\U{2028}' || c == '\U{2029}'
  }

  /** A text on one line, without white space at its ends. */
  predicate Trimmed(s: string) {
    s != [] && !IsSpace(s[0]) && !IsSpace(s[|s| - 1]) && forall i :: 0 <= i < |s| ==> !IsLineBreak(s[i])
  }

  predicate PlainKey(k: string) {
    && Trimmed(k)
    && k[0] != '"' && k[0] != '\'' && k[0] != '[' && k[0] != '{' && k != "<<" && !IsDash(k)
    && ':' !in k && '#' !in k && !Contains(k, "${{")
  }

  /** No `#` starts a comment, wherever the quotes are. */
  ghost predicate NoComment(s: string) { !HashIn(s, ' ') }

  ghost predicate PlainScalar(s: string) {
    && Trimmed(s) && NoComment(s)
    && s[0] != '"' && s[0] != '\'' && s[0] != '[' && s[0] != '{' && s[0] != '&' && s[0] != '*' && s[0] != '!'
    && !IsBlockScalar(s) && SplitKey(s).None?
  }

  ghost function Keys(e: Entries): set<string> {
    if e.LastEntry? then {e.key} else {e.key} + Keys(e.rest)
  }

  predicate OneLine(v: string) {
    forall i :: 0 <= i < |v| ==> !IsLineBreak(v[i])
  }

  /** A scalar that can stand alone on a line: plain; in single quotes, where no comment is found; or in
      double quotes, whose newlines are escaped. */
  ghost predicate LeafOk(v: string, quote: Quote) {
    match quote
    case Plain => PlainScalar(v)
    case Single => OneLine(v) && !HashAfterQuote(v)
    case Double => forall i :: 0 <= i < |v| ==> v[i] == '\n' || !IsLineBreak(v[i])
  }

  ghost predicate PlainTree(t: Tree) {
    match t
    case Null => true
    case Leaf(v, quote) => LeafOk(v, quote)
    case Mapping(e, flow) => if flow then FlowEntriesOk(e) && NoComment(InlineText(t)) else PlainEntries(e)
    case Sequence(items, layout) => if layout == Bracketed then FlowItemsOk(items) && NoComment(InlineText(t)) else PlainItems(items)
  }

  /** Plain, distinct keys; and no quote in a key whose value has a `#` after white space. */
  ghost predicate PlainEntries(e: Entries) {
    && PlainKey(e.key) && PlainTree(e.value) && (NoQuotes(e.key) || NoComment(InlineText(e.value)))
    && (e.Entry? ==> e.key !in Keys(e.rest) && PlainEntries(e.rest))
  }

  /** Scalars, which a flow collection can hold. */
  ghost predicate FlowLeaf(t: Tree) {
    t.Leaf? && FlowScalar(t.text, t.quote) && (t.quote == Plain ==> PlainScalar(t.text)) && (t.quote != Plain ==> OneLine(t.text))
  }

  ghost predicate FlowItemsOk(items: Items) {
    FlowLeaf(items.item) && (items.Item? ==> FlowItemsOk(items.rest))
  }

  ghost predicate FlowEntriesOk(e: Entries) {
    PlainKey(e.key) && FlowPlain(e.key) && FlowLeaf(e.value) && (e.Entry? ==> FlowEntriesOk(e.rest))
  }

  /** No sequence stands flush with the dash it is the value of. */
  ghost predicate PlainItems(items: Items) {
    PlainTree(items.item) && !IsFlush(items.item) && (items.Item? ==> PlainItems(items.rest))
  }

  // ---- printing

  datatype Printed = Printed(indent: nat, text: string)

  predicate IsFlush(t: Tree) {
    t.Sequence? && t.layout == Flush
  }

  predicate IsInline(t: Tree) {
    t.Leaf? || (t.Mapping? && t.flow) || (t.Sequence? && t.layout == Bracketed)
  }

  function LeafText(t: Tree): string {
    if t.Leaf? then ScalarText(t.text, t.quote) else ""
  }

  function ItemParts(items: Items): (r: seq<string>)
    ensures r != []
  {
    [LeafText(items.item)] + if items.LastItem? then [] else ItemParts(items.rest)
  }

  function EntryParts(e: Entries): (r: seq<string>)
    ensures r != []
  {
    [e.key + ":" + ([' '] + LeafText(e.value))] + if e.LastEntry? then [] else EntryParts(e.rest)
  }

  /** A value on the line of its key or dash. */
  function InlineText(t: Tree): string {
    if !IsInline(t) then "" else
    match t
    case Leaf(v, quote) => ScalarText(v, quote)
    case Mapping(e, _) => FlowText(EntryParts(e), true)
    case Sequence(items, _) => FlowText(ItemParts(items), false)
  }

  /** What stands on the line of the key or dash. */
  function Inline(t: Tree): string {
    if IsInline(t) then [' '] + InlineText(t) else ""
  }

  function EntryText(key: string, value: Tree): string {
    key + ":" + Inline(value)
  }

  /** What stands on the lines below. */
  function Below(t: Tree, n: nat): seq<Printed>
    decreases t, 0
  {
    match t
    case Mapping(e, flow) => if flow then [] else PrintEntries(e, n + 2)
    case Sequence(items, layout) => if layout == Bracketed then [] else PrintItems(items, if layout == Flush then n else n + 2)
    case _ => []
  }

  function PrintEntries(e: Entries, n: nat): (r: seq<Printed>)
    ensures |r| > 0 && r[0] == Printed(n, EntryText(e.key, e.value))
    decreases e, 1
  {
    [Printed(n, EntryText(e.key, e.value))] + Below(e.value, n) + (if e.LastEntry? then [] else PrintEntries(e.rest, n))
  }

  /** A block mapping starts on the line of its dash. */
  function PrintItem(item: Tree, n: nat): (r: seq<Printed>)
    ensures |r| > 0 && r[0].indent == n && IsDash(r[0].text)
    decreases item, 1
  {
    if item.Mapping? && !item.flow then
      var lines := PrintEntries(item.entries, n + 2);
      [Printed(n, "- " + lines[0].text)] + lines[1..]
    else [Printed(n, "-" + Inline(item))] + Below(item, n)
  }

  function PrintItems(items: Items, n: nat): (r: seq<Printed>)
    ensures |r| > 0 && r[0].indent == n && IsDash(r[0].text)
    decreases items, 2
  {
    PrintItem(items.item, n) + (if items.LastItem? then [] else PrintItems(items.rest, n))
  }

  function Spaces(n: nat): (s: string)
    ensures |s| == n && forall i :: 0 <= i < n ==> s[i] == ' '
  {
    seq(n, _ => ' ')
  }

  /** The raw lines of a tree. */
  function Render(ps: seq<Printed>): (r: seq<string>)
    ensures |r| == |ps| && forall i :: 0 <= i < |ps| ==> r[i] == Spaces(ps[i].indent) + ps[i].text
  {
    seq(|ps|, i requires 0 <= i < |ps| => Spaces(ps[i].indent) + ps[i].text)
  }

  // ---- what a node shows

  ghost predicate Shows(n: Node, t: Tree)
    decreases t, 0
  {
    match t
    case Null => n.kind == NullNode
    case Leaf(s, _) => n.kind == ScalarNode && n.value == Some(s)
    case Mapping(e, _) => n.kind == MapNode && ShowsEntries(n.children, e)
    case Sequence(items, _) => n.kind == SeqNode && ShowsItems(n.items, items)
  }

  ghost predicate ShowsEntries(children: seq<Node>, e: Entries)
    decreases e, 1
  {
    && |children| > 0 && children[0].key == Some(e.key) && Shows(children[0], e.value)
    && if e.LastEntry? then |children| == 1 else ShowsEntries(children[1..], e.rest)
  }

  ghost predicate ShowsItems(nodes: seq<Node>, items: Items)
    decreases items, 1
  {
    && |nodes| > 0 && Shows(nodes[0], items.item)
    && if items.LastItem? then |nodes| == 1 else ShowsItems(nodes[1..], items.rest)
  }

  /** The tree without its styles. */
  function Bare(t: Tree): Tree
    decreases t, 0
  {
    match t
    case Null => Null
    case Leaf(v, _) => Leaf(v, Plain)
    case Mapping(e, _) => Mapping(BareEntries(e), false)
    case Sequence(items, _) => Sequence(BareItems(items), Indented)
  }

  function BareEntries(e: Entries): Entries
    decreases e, 1
  {
    match e
    case LastEntry(k, v) => LastEntry(k, Bare(v))
    case Entry(k, v, rest) => Entry(k, Bare(v), BareEntries(rest))
  }

  function BareItems(items: Items): Items
    decreases items, 1
  {
    match items
    case LastItem(item) => LastItem(Bare(item))
    case Item(item, rest) => Item(Bare(item), BareItems(rest))
  }

  /** A node shows one tree at most, its styles aside, so reading a tree back loses nothing. */
  lemma {:induction false} ShowsUnique(n: Node, t: Tree, u: Tree)
    requires Shows(n, t) && Shows(n, u)
    ensures Bare(t) == Bare(u)
    decreases t, 0
  {
    if t.Mapping? { ShowsEntriesUnique(n.children, t.entries, u.entries); }
    if t.Sequence? { ShowsItemsUnique(n.items, t.items, u.items); }
  }

  lemma {:induction false} ShowsEntriesUnique(children: seq<Node>, e: Entries, f: Entries)
    requires ShowsEntries(children, e) && ShowsEntries(children, f)
    ensures BareEntries(e) == BareEntries(f)
    decreases e, 1
  {
    ShowsUnique(children[0], e.value, f.value);
    if e.Entry? && f.Entry? { ShowsEntriesUnique(children[1..], e.rest, f.rest); }
  }

  lemma {:induction false} ShowsItemsUnique(nodes: seq<Node>, items: Items, others: Items)
    requires ShowsItems(nodes, items) && ShowsItems(nodes, others)
    ensures BareItems(items) == BareItems(others)
    decreases items, 1
  {
    ShowsUnique(nodes[0], items.item, others.item);
    if items.Item? && others.Item? { ShowsItemsUnique(nodes[1..], items.rest, others.rest); }
  }

  // ---- text

  lemma StripTrimmed(s: string)
    requires s != [] ==> !IsSpace(s[0]) && !IsSpace(s[|s| - 1])
    ensures Strip(s) == s && Strip([' '] + s) == s
  {
    hide IsSpace;
    assert LStrip(s) == s;
    assert ([' '] + s)[1..] == s;
    assert IsSpace(' ') by { SpaceIsSpace(); }
    assert LStrip([' '] + s) == LStrip(s);
  }

  lemma SpaceIsSpace()
    ensures IsSpace(' ')
  {
  }

  /** Where the first colon is. */
  lemma {:induction false} FindColon(text: string, n: nat)
    requires n < |text| && text[n] == ':' && forall i :: 0 <= i < n ==> text[i] != ':'
    ensures Find(text, ':', 0) == Some(n)
  {
  }

  /** `key:` and `key: scalar` split back into their parts. */
  lemma SplitEntry(key: string, s: string)
    requires PlainKey(key) && (s != [] ==> !IsSpace(s[0]) && !IsSpace(s[|s| - 1]))
    ensures SplitKey(key + ":" + (if s == [] then "" else [' '] + s)) == Some((key, s))
  {
    hide IsSpace, Contains, Strip, IsLineBreak, IsDash;
    var after := if s == [] then "" else [' '] + s;
    var text := key + ":" + after;
    assert text[0] == key[0];
    FindColon(text, |key|);
    assert text[..|key|] == key && text[|key| + 1..] == after;
    StripTrimmed(s);
    SpaceIsSpace();
    assert '#' !in key[..|key| - 1];
  }

  lemma FlowMarks()
    ensures !IsSpace('[') && !IsSpace(']') && !IsSpace('{') && !IsSpace('}') && !IsSpace('"') && !IsSpace('\'')
  {
  }

  /** A value on one line has no white space at its ends. */
  lemma {:induction false} InlineEnds(t: Tree)
    requires PlainTree(t)
    ensures IsInline(t) <==> InlineText(t) != []
    ensures IsInline(t) ==> !IsSpace(InlineText(t)[0]) && !IsSpace(InlineText(t)[|InlineText(t)| - 1])
  {
    hide IsSpace, Commas, FlowEntriesOk, FlowItemsOk, PlainEntries, PlainItems, HashIn, HashAfterQuote;
    FlowMarks();
  }

  lemma {:induction false} EntrySplits(key: string, value: Tree)
    requires PlainKey(key) && PlainTree(value)
    ensures SplitKey(EntryText(key, value)) == Some((key, InlineText(value)))
    ensures EntryText(key, value) != "" && !IsDash(EntryText(key, value)) && OpensMap(EntryText(key, value))
    ensures EntryText(key, value)[0] == key[0]
  {
    hide IsSpace, Contains, SplitKey, IsLineBreak, InlineText, PlainTree;
    InlineEnds(value);
    SplitEntry(key, InlineText(value));
    var text := EntryText(key, value);
    assert text[0] == key[0];
    if |key| > 1 { assert text[1] == key[1]; } else { assert text[1] == ':'; }
  }

  lemma {:induction false} EntryNoDash(key: string, value: Tree)
    requires PlainKey(key) && PlainTree(value)
    ensures !IsDash(EntryText(key, value))
  {
    hide IsDash, PlainKey, PlainTree, EntryText;
    EntrySplits(key, value);
  }

  lemma DashRest(x: string)
    requires x != [] && !IsSpace(x[0])
    ensures AfterDash("- " + x) == x && IsDash("- " + x)
  {
    hide IsSpace;
    SpaceIsSpace();
    assert ("- " + x)[1..] == [' '] + x && ([' '] + x)[1..] == x;
    assert LStrip(x) == x;
  }

  lemma {:induction false} OpensNoMap(t: Tree)
    requires PlainTree(t)
    ensures !OpensMap(InlineText(t))
  {
    hide IsSpace, SplitKey, IsBlockScalar, IsLineBreak, Commas, FlowEntriesOk, FlowItemsOk, PlainEntries, PlainItems;
  }

  lemma {:induction false} ItemRest(item: Tree)
    requires PlainTree(item) && !(item.Mapping? && !item.flow)
    ensures IsDash("-" + Inline(item)) && AfterDash("-" + Inline(item)) == InlineText(item)
    ensures !OpensMap(AfterDash("-" + Inline(item)))
  {
    hide IsSpace, InlineText, PlainTree, OpensMap;
    InlineEnds(item);
    OpensNoMap(item);
    if IsInline(item) {
      assert "-" + ([' '] + InlineText(item)) == "- " + InlineText(item);
      DashRest(InlineText(item));
    } else {
      assert "-" + "" == "-" && "-"[1..] == "";
    }
  }

  // ---- reading printed lines

  /** The printed lines stand at `pos`. */
  ghost predicate Lined(lines: seq<Line>, pos: nat, ps: seq<Printed>) {
    && pos + |ps| <= |lines|
    && forall i :: 0 <= i < |ps| ==> lines[pos + i].indent == ps[i].indent && lines[pos + i].text == ps[i].text
  }

  lemma LinedSplit(lines: seq<Line>, pos: nat, a: seq<Printed>, b: seq<Printed>)
    requires Lined(lines, pos, a + b)
    ensures Lined(lines, pos, a) && Lined(lines, pos + |a|, b)
  {
    forall i | 0 <= i < |a|
      ensures lines[pos + i].indent == a[i].indent && lines[pos + i].text == a[i].text
    {
      assert (a + b)[i] == a[i];
    }
    forall i | 0 <= i < |b|
      ensures lines[pos + |a| + i].indent == b[i].indent && lines[pos + |a| + i].text == b[i].text
    {
      assert (a + b)[|a| + i] == b[i] && pos + (|a| + i) == pos + |a| + i;
    }
  }

  /** The block at indentation `n` is over at `p`. */
  ghost predicate Over(lines: seq<Line>, p: nat, n: nat) {
    p == |lines| || (p < |lines| && lines[p].text != "" && lines[p].indent < n)
  }

  /** The value of line `ln` at indentation `n` is over at `p`. */
  ghost predicate ValueOver(lines: seq<Line>, p: nat, n: nat, ln: Line) {
    || Over(lines, p, n)
    || (p < |lines| && lines[p].text != "" && lines[p].indent == n && (!IsDash(lines[p].text) || IsDash(ln.text)))
  }

  ghost predicate SameFrom(lines: seq<Line>, after: seq<Line>, p: nat) {
    |after| == |lines| && forall i :: p <= i < |lines| ==> after[i] == lines[i]
  }

  lemma LinedLater(lines: seq<Line>, after: seq<Line>, p: nat, pos: nat, ps: seq<Printed>)
    requires SameFrom(lines, after, p) && p <= pos && Lined(lines, pos, ps)
    ensures Lined(after, pos, ps)
  {
  }

  /** `r` read `t` up to `end`. */
  ghost predicate ReadsTree(r: Outcome<Read<Node>>, t: Tree, lines: seq<Line>, end: nat) {
    r.Ok? && r.value.pos == end && Shows(r.value.got, t) && SameFrom(lines, r.value.lines, end)
  }

  ghost predicate ReadsEntries(r: Outcome<Read<seq<Node>>>, acc: seq<Node>, e: Entries, lines: seq<Line>, end: nat) {
    && r.Ok? && r.value.pos == end && SameFrom(lines, r.value.lines, end)
    && acc <= r.value.got && ShowsEntries(r.value.got[|acc|..], e)
  }

  ghost predicate ReadsItems(r: Outcome<Read<seq<Node>>>, acc: seq<Node>, items: Items, lines: seq<Line>, end: nat) {
    && r.Ok? && r.value.pos == end && SameFrom(lines, r.value.lines, end)
    && acc <= r.value.got && ShowsItems(r.value.got[|acc|..], items)
  }

  ghost predicate NewKeys(children: seq<Node>, e: Entries) {
    forall k :: k in Keys(e) ==> !HasKey(children, k)
  }

  lemma {:induction false} ValueReads(raw: seq<string>, lines: seq<Line>, pos: nat, t: Tree, ln: Line, n: nat)
    requires |raw| == |lines| && pos <= |lines| && PlainTree(t) && (IsFlush(t) ==> !IsDash(ln.text))
    requires Lined(lines, pos, Below(t, n)) && ValueOver(lines, pos + |Below(t, n)|, n, ln)
    ensures ReadsTree(Value(raw, lines, pos, InlineText(t), ln, n), t, lines, pos + |Below(t, n)|)
    decreases t, 0
  {
    hide Value, PrintEntries, PrintItems, PlainEntries, PlainItems, ReadsTree, PlainScalar;
    match t
    case Null => InlineReads(raw, lines, pos, t, ln, n);
    case Leaf(_, _) => InlineReads(raw, lines, pos, t, ln, n);
    case Mapping(e, flow) => if flow { InlineReads(raw, lines, pos, t, ln, n); } else { MappingBelow(raw, lines, pos, e, ln, n); }
    case Sequence(items, layout) =>
      match layout
      case Bracketed => InlineReads(raw, lines, pos, t, ln, n);
      case Indented => SequenceBelow(raw, lines, pos, items, ln, n);
      case Flush => FlushBelow(raw, lines, pos, items, ln, n);
  }

  lemma {:induction false} InlineReads(raw: seq<string>, lines: seq<Line>, pos: nat, t: Tree, ln: Line, n: nat)
    requires |raw| == |lines| && pos <= |lines| && PlainTree(t) && (t.Null? || IsInline(t)) && ValueOver(lines, pos, n, ln)
    ensures ReadsTree(Value(raw, lines, pos, InlineText(t), ln, n), t, lines, pos)
  {
    assert Skip(lines, pos) == pos;
    if t.Null? {
      hide Block, SeqBlock, IsDash;
    } else {
      hide IsSpace, IsBlockScalar, IsDash, Block, SeqBlock, InlineText, PlainTree, Shows, Flow, Scalar;
      InlineEnds(t);
      InlineStarts(t);
      var node := InlineNode(t, ln.no);
      RelabelShows(node, node.(valueLine := ln.no), t);
    }
  }

  /** No value on one line is taken for a block scalar, an anchor, an alias or a tag. */
  lemma {:induction false} InlineStarts(t: Tree)
    requires PlainTree(t) && IsInline(t)
    ensures var s := InlineText(t); s != [] && s[0] != '&' && s[0] != '*' && s[0] != '!' && !IsBlockScalar(s)
  {
    hide IsSpace, SplitKey, IsLineBreak, Commas, FlowEntriesOk, FlowItemsOk, HashIn, HashAfterQuote;
    if t.Leaf? && t.quote == Plain { hide IsBlockScalar; }
  }

  /** What is read on one line shows the tree that was written there. */
  lemma InlineNode(t: Tree, no: nat) returns (node: Node)
    requires PlainTree(t) && IsInline(t)
    ensures Shows(node, t) && var s := InlineText(t);
      && s != []
      && (s[0] == '[' || s[0] == '{' ==> Flow(s, no) == Ok(node))
      && (s[0] != '[' && s[0] != '{' ==> node.value.Some? && Scalar(s, no) == Ok(node.value.value) && node == ScalarLeaf(no, node.value.value, 0))
  {
    hide IsSpace, SplitKey, IsLineBreak, HashIn, HashAfterQuote, IsBlockScalar, Flow, Commas, FlowEntries, FlowItems;
    match t
    case Leaf(v, quote) =>
      if quote != Plain { QuotedReads(v, quote, no); }
      node := ScalarLeaf(no, v, 0);
    case Mapping(e, _) =>
      var children := FlowEntriesRead(e, no);
      EntryPartsFound(e);
      FlowReads(EntryParts(e), true, no);
      node := Node(no, None, None, None, MapNode, children, [], 0);
    case Sequence(items, _) =>
      var nodes := FlowItemsRead(items, no);
      ItemPartsFound(items);
      FlowReads(ItemParts(items), false, no);
      node := Node(no, None, None, None, SeqNode, [], nodes, 0);
  }

  /** A scalar of a flow collection reads as itself. */
  lemma FlowLeafReads(t: Tree, no: nat)
    requires FlowLeaf(t)
    ensures LeafText(t) != [] && LeafText(t)[0] != '[' && LeafText(t)[0] != '{' && Scalar(LeafText(t), no) == Ok(t.text)
    ensures IsPart(LeafText(t))
  {
    hide IsSpace, SplitKey, IsLineBreak, HashIn, IsBlockScalar, Sealed;
    FlowMarks();
    ScalarSealed(t.text, t.quote);
    if t.quote != Plain { QuotedReads(t.text, t.quote, no); }
  }

  lemma {:induction false} FlowItemsRead(items: Items, no: nat) returns (nodes: seq<Node>)
    requires FlowItemsOk(items)
    ensures FlowItems(ItemParts(items), no) == Ok(nodes) && ShowsItems(nodes, items)
    decreases items
  {
    hide FlowLeaf, LeafText, Scalar;
    FlowLeafReads(items.item, no);
    FlowLeafText(items.item);
    var first := ScalarLeaf(no, items.item.text, no);
    var parts := ItemParts(items);
    if items.LastItem? {
      nodes := [first];
      assert parts[1..] == [] && [first] + [] == nodes;
    } else {
      var rest := FlowItemsRead(items.rest, no);
      assert parts[1..] == ItemParts(items.rest);
      nodes := [first] + rest;
      assert nodes[1..] == rest;
    }
  }

  lemma FlowLeafText(t: Tree)
    requires FlowLeaf(t)
    ensures t.Leaf?
  {
  }

  lemma {:induction false} ItemPartsFound(items: Items)
    requires FlowItemsOk(items)
    ensures forall k :: 0 <= k < |ItemParts(items)| ==> IsPart(ItemParts(items)[k])
    decreases items
  {
    hide FlowLeaf, LeafText, IsPart;
    FlowLeafReads(items.item, 0);
    if items.Item? { ItemPartsFound(items.rest); }
  }

  /** An entry of a flow mapping is found whole and splits back into its key and value. */
  lemma FlowEntrySplits(key: string, value: Tree)
    requires PlainKey(key) && FlowPlain(key) && FlowLeaf(value)
    ensures var part := key + ":" + ([' '] + LeafText(value));
      IsPart(part) && SplitKey(part) == Some((key, LeafText(value)))
  {
    hide SplitKey, Contains, IsSpace, IsLineBreak, Sealed, FlowLeaf;
    FlowLeafReads(value, 0);
    var s := LeafText(value);
    SplitEntry(key, s);
    KeyStart(key);
    var part := key + ":" + ([' '] + s);
    assert part == key + ": " + s && part[0] == key[0] && part[|part| - 1] == s[|s| - 1];
    KeySealed(key);
    SealedConcat(key + ": ", s, None);
  }

  lemma {:induction false} KeySealed(key: string)
    requires FlowPlain(key)
    ensures Sealed(key + ": ", None)
  {
    var t := key + ": ";
    assert forall i :: 0 <= i < |key| ==> t[i] == key[i];
    assert t[|key|] == ':' && t[|key| + 1] == ' ';
    SealedPlain(t);
  }

  lemma {:induction false} FlowEntriesRead(e: Entries, no: nat) returns (children: seq<Node>)
    requires FlowEntriesOk(e)
    ensures FlowEntries(EntryParts(e), no) == Ok(children) && ShowsEntries(children, e)
    decreases e
  {
    hide FlowLeaf, LeafText, Scalar, SplitKey, PlainKey, FlowPlain;
    FlowLeafReads(e.value, no);
    FlowLeafText(e.value);
    FlowEntrySplits(e.key, e.value);
    var first := ScalarLeaf(no, e.value.text, no).(key := Some(e.key));
    var parts := EntryParts(e);
    if e.LastEntry? {
      children := [first];
      assert parts[1..] == [] && [first] + [] == children;
    } else {
      var rest := FlowEntriesRead(e.rest, no);
      assert parts[1..] == EntryParts(e.rest);
      children := [first] + rest;
      assert children[1..] == rest;
    }
  }

  lemma {:induction false} EntryPartsFound(e: Entries)
    requires FlowEntriesOk(e)
    ensures forall k :: 0 <= k < |EntryParts(e)| ==> IsPart(EntryParts(e)[k])
    decreases e
  {
    hide FlowLeaf, LeafText, IsPart, PlainKey, FlowPlain, SplitKey;
    FlowEntrySplits(e.key, e.value);
    if e.Entry? { EntryPartsFound(e.rest); }
  }

  lemma {:induction false} MappingBelow(raw: seq<string>, lines: seq<Line>, pos: nat, e: Entries, ln: Line, n: nat)
    requires |raw| == |lines| && pos <= |lines| && PlainEntries(e)
    requires Lined(lines, pos, PrintEntries(e, n + 2)) && ValueOver(lines, pos + |PrintEntries(e, n + 2)|, n, ln)
    ensures ReadsTree(Value(raw, lines, pos, "", ln, n), Mapping(e, false), lines, pos + |PrintEntries(e, n + 2)|)
    decreases e, 2
  {
    hide IsDash, MapTail, Value, MapBlock, Shows, PrintEntries, EntryText, PlainKey, PlainTree;
    hide PlainEntries, NewKeys, Over, ValueOver, Lined, ReadsTree, ReadsEntries, SplitKey, OpensMap, Block, HasKey, Below;
    var ps := PrintEntries(e, n + 2);
    NoKeysYet(e);
    FirstEntry(e, []);
    EntrySplits(e.key, e.value);
    LinedFirst(lines, pos, ps);
    DeeperOver(lines, pos + |ps|, n, ln);
    EntriesRead(raw, lines, pos, n + 2, e, []);
    MapBlockReads(raw, lines, pos, n + 2, lines[pos].no, e, pos + |ps|);
    BlockKind(raw, lines, pos, n + 2);
    ValueIsBlock(raw, lines, pos, ln, n, Mapping(e, false), pos + |ps|);
  }

  lemma {:induction false} SequenceBelow(raw: seq<string>, lines: seq<Line>, pos: nat, items: Items, ln: Line, n: nat)
    requires |raw| == |lines| && pos <= |lines| && PlainItems(items)
    requires Lined(lines, pos, PrintItems(items, n + 2)) && ValueOver(lines, pos + |PrintItems(items, n + 2)|, n, ln)
    ensures ReadsTree(Value(raw, lines, pos, "", ln, n), Sequence(items, Indented), lines, pos + |PrintItems(items, n + 2)|)
    decreases items, 4
  {
    hide IsDash, SeqTail, Value, SeqBlock, Shows, PrintItems, PlainItems, Over, ValueOver, Lined, ReadsTree, ReadsItems, Block;
    var ps := PrintItems(items, n + 2);
    LinedFirst(lines, pos, ps);
    DashNotEmpty(ps[0].text);
    DeeperOver(lines, pos + |ps|, n, ln);
    ItemsRead(raw, lines, pos, n + 2, items, []);
    SeqBlockReads(raw, lines, pos, n + 2, lines[pos].no, items, Indented, pos + |ps|);
    BlockKind(raw, lines, pos, n + 2);
    ValueIsBlock(raw, lines, pos, ln, n, Sequence(items, Indented), pos + |ps|);
  }

  /** A sequence flush with its key is the value below it. */
  lemma {:induction false} FlushBelow(raw: seq<string>, lines: seq<Line>, pos: nat, items: Items, ln: Line, n: nat)
    requires |raw| == |lines| && pos <= |lines| && PlainItems(items) && !IsDash(ln.text)
    requires Lined(lines, pos, PrintItems(items, n)) && ValueOver(lines, pos + |PrintItems(items, n)|, n, ln)
    ensures ReadsTree(Value(raw, lines, pos, "", ln, n), Sequence(items, Flush), lines, pos + |PrintItems(items, n)|)
    decreases items, 4
  {
    hide IsDash, SeqTail, Value, SeqBlock, Shows, PrintItems, PlainItems, Over, ValueOver, Lined, ReadsTree, ReadsItems, Block;
    var ps := PrintItems(items, n);
    LinedFirst(lines, pos, ps);
    DashNotEmpty(ps[0].text);
    FlushEnd(lines, pos + |ps|, n, ln);
    ItemsRead(raw, lines, pos, n, items, []);
    SeqBlockReads(raw, lines, pos, n, lines[pos].no, items, Flush, pos + |ps|);
    ValueIsSeq(raw, lines, pos, ln, n);
  }

  lemma FlushEnd(lines: seq<Line>, p: nat, n: nat, ln: Line)
    requires ValueOver(lines, p, n, ln) && !IsDash(ln.text)
    ensures SeqEnd(lines, p, n)
  {
  }

  lemma {:induction false} ValueIsSeq(raw: seq<string>, lines: seq<Line>, pos: nat, ln: Line, n: nat)
    requires |raw| == |lines| && pos < |lines| && lines[pos].text != "" && lines[pos].indent == n
    requires IsDash(lines[pos].text) && !IsDash(ln.text)
    ensures Value(raw, lines, pos, "", ln, n) == SeqBlock(raw, lines, pos, n, lines[pos].no)
  {
    hide Block, SeqBlock, IsDash, Flow, Scalar, BlockBody, Join, DropEmptyTail;
    assert Skip(lines, pos) == pos;
  }

  lemma {:induction false} BlockKind(raw: seq<string>, lines: seq<Line>, pos: nat, n: nat)
    requires |raw| == |lines| && pos < |lines|
    ensures Block(raw, lines, pos, n) ==
      if IsDash(lines[pos].text) then SeqBlock(raw, lines, pos, n, lines[pos].no) else MapBlock(raw, lines, pos, n, lines[pos].no)
  {
    hide IsDash, SeqBlock, MapBlock;
  }

  lemma NoKeysYet(e: Entries)
    ensures NewKeys([], e)
  {
  }

  /** What ends a value ends every block deeper than it. */
  lemma DeeperOver(lines: seq<Line>, p: nat, n: nat, ln: Line)
    requires ValueOver(lines, p, n, ln)
    ensures Over(lines, p, n + 2)
  {
  }

  /** A deeper block below an empty value is the value. */
  lemma {:induction false} ValueIsBlock(raw: seq<string>, lines: seq<Line>, pos: nat, ln: Line, n: nat, t: Tree, end: nat)
    requires |raw| == |lines| && pos < |lines| && lines[pos].text != "" && lines[pos].indent == n + 2
    requires ReadsTree(Block(raw, lines, pos, n + 2), t, lines, end)
    ensures ReadsTree(Value(raw, lines, pos, "", ln, n), t, lines, end)
  {
    hide Block, SeqBlock, Shows, IsDash, Flow, Scalar, BlockBody, Join, DropEmptyTail;
    assert Skip(lines, pos) == pos;
  }

  lemma {:induction false} MapBlockReads(raw: seq<string>, lines: seq<Line>, pos: nat, n: nat, no: nat, e: Entries, end: nat)
    requires |raw| == |lines| && pos <= |lines| && ReadsEntries(MapTail(raw, lines, pos, n, []), [], e, lines, end)
    ensures ReadsTree(MapBlock(raw, lines, pos, n, no), Mapping(e, false), lines, end)
  {
    hide MapTail;
    var got := MapTail(raw, lines, pos, n, []).value.got;
    assert got[0..] == got;
  }

  lemma DashNotEmpty(text: string)
    requires IsDash(text)
    ensures text != ""
  {
  }

  lemma {:induction false} RelabelShows(n: Node, m: Node, t: Tree)
    requires Shows(n, t) && m.kind == n.kind && m.value == n.value && m.children == n.children && m.items == n.items
    ensures Shows(m, t)
  {
  }

  /** The first line of what is left, or the end, closes the value before it. */
  lemma {:induction false} EntryEnds(lines: seq<Line>, mid: nat, e: Entries, n: nat, ln: Line)
    requires PlainEntries(e) && mid <= |lines|
    requires e.LastEntry? ==> Over(lines, mid, n)
    requires e.Entry? ==> Lined(lines, mid, PrintEntries(e.rest, n))
    ensures ValueOver(lines, mid, n, ln)
  {
    if e.Entry? {
      EntrySplits(e.rest.key, e.rest.value);
      var ps := PrintEntries(e.rest, n);
      assert lines[mid + 0].text == ps[0].text && lines[mid + 0].indent == ps[0].indent;
    }
  }

  lemma {:induction false} MoreEntries(got: seq<Node>, acc: seq<Node>, node: Node, e: Entries)
    requires acc + [node] <= got && node.key == Some(e.key) && Shows(node, e.value)
    requires if e.LastEntry? then got == acc + [node] else ShowsEntries(got[|acc| + 1..], e.rest)
    ensures acc <= got && ShowsEntries(got[|acc|..], e)
  {
    var shown := got[|acc|..];
    assert got[|acc|] == node;
    assert shown[0] == node && shown[1..] == got[|acc| + 1..];
  }

  /** One entry: what `_map`'s loop does with its line. */
  lemma EntryStep(raw: seq<string>, lines: seq<Line>, pos: nat, n: nat, key: string, value: Tree, acc: seq<Node>)
    requires |raw| == |lines| && pos < |lines| && PlainKey(key) && PlainTree(value) && !HasKey(acc, key)
    requires lines[pos].indent == n && lines[pos].text == EntryText(key, value)
    requires var r := Value(raw, lines, pos + 1, InlineText(value), lines[pos], n);
      r.Ok? && Shows(r.value.got, value)
    ensures var r := Value(raw, lines, pos + 1, InlineText(value), lines[pos], n);
      var node := r.value.got.(key := Some(key), line := lines[pos].no, comment := lines[pos].comment);
      Shows(node, value) && MapTail(raw, lines, pos, n, acc) == MapTail(raw, r.value.lines, r.value.pos, n, acc + [node])
  {
    hide IsSpace, Contains, IsDash, SplitKey, Value, IsLineBreak, Trimmed, EntryText, PlainTree;
    EntrySplits(key, value);
    var r := Value(raw, lines, pos + 1, InlineText(value), lines[pos], n);
    RelabelShows(r.value.got, r.value.got.(key := Some(key), line := lines[pos].no, comment := lines[pos].comment), value);
  }

  /** The lines of a first entry: its own, those below it, and those of the entries after it. */
  lemma EntryLines(lines: seq<Line>, pos: nat, n: nat, e: Entries) returns (below: seq<Printed>, tail: seq<Printed>)
    requires Lined(lines, pos, PrintEntries(e, n))
    ensures below == Below(e.value, n) && tail == if e.LastEntry? then [] else PrintEntries(e.rest, n)
    ensures |PrintEntries(e, n)| == 1 + |below| + |tail|
    ensures pos < |lines| && lines[pos].text == EntryText(e.key, e.value) && lines[pos].indent == n
    ensures Lined(lines, pos + 1, below) && Lined(lines, pos + 1 + |below|, tail)
  {
    hide EntryText, Below, PrintEntries, Lined;
    var head := [Printed(n, EntryText(e.key, e.value))];
    below := Below(e.value, n);
    tail := if e.LastEntry? then [] else PrintEntries(e.rest, n);
    PrintedParts(e, n);
    LinedSplit(lines, pos, head + below, tail);
    LinedSplit(lines, pos, head, below);
    LinedFirst(lines, pos, head);
  }

  lemma {:induction false} PrintedParts(e: Entries, n: nat)
    ensures PrintEntries(e, n) == [Printed(n, EntryText(e.key, e.value))] + Below(e.value, n)
                                  + if e.LastEntry? then [] else PrintEntries(e.rest, n)
  {
    hide EntryText, Below;
  }

  lemma LinedFirst(lines: seq<Line>, pos: nat, ps: seq<Printed>)
    requires Lined(lines, pos, ps) && ps != []
    ensures pos < |lines| && lines[pos].text == ps[0].text && lines[pos].indent == ps[0].indent
  {
    assert lines[pos + 0].text == ps[0].text && lines[pos + 0].indent == ps[0].indent;
  }

  lemma {:induction false} FirstEntry(e: Entries, acc: seq<Node>)
    requires PlainEntries(e) && NewKeys(acc, e)
    ensures PlainKey(e.key) && PlainTree(e.value) && !HasKey(acc, e.key) && (e.Entry? ==> PlainEntries(e.rest))
  {
    hide PlainKey, PlainTree;
  }

  lemma {:induction false} EntriesRead(raw: seq<string>, lines: seq<Line>, pos: nat, n: nat, e: Entries, acc: seq<Node>)
    requires |raw| == |lines| && PlainEntries(e) && NewKeys(acc, e)
    requires Lined(lines, pos, PrintEntries(e, n)) && Over(lines, pos + |PrintEntries(e, n)|, n)
    ensures ReadsEntries(MapTail(raw, lines, pos, n, acc), acc, e, lines, pos + |PrintEntries(e, n)|)
    decreases e, 1
  {
    hide PlainKey, PlainTree, EntryText, MapTail, Value, Shows, HasKey, ShowsEntries, IsDash, ValueOver, InlineText;
    hide PlainEntries, NewKeys, Lined, Below, PrintEntries;
    var below, tail := EntryLines(lines, pos, n, e);
    FirstEntry(e, acc);
    var mid := pos + 1 + |below|;
    var ln := lines[pos];
    EntryEnds(lines, mid, e, n, ln);
    EntryNoDash(e.key, e.value);
    ValueReads(raw, lines, pos + 1, e.value, ln, n);
    EntryStep(raw, lines, pos, n, e.key, e.value, acc);
    var r := Value(raw, lines, pos + 1, InlineText(e.value), ln, n);
    var node := r.value.got.(key := Some(e.key), line := ln.no, comment := ln.comment);
    var lines' := r.value.lines;
    if e.LastEntry? {
      MapOver(raw, lines', mid, n, acc + [node]);
      MoreEntries(acc + [node], acc, node, e);
    } else {
      LinedLater(lines, lines', mid, mid, tail);
      KeysGrow(acc, node, e);
      EntriesRead(raw, lines', mid, n, e.rest, acc + [node]);
      MoreEntries(MapTail(raw, lines', mid, n, acc + [node]).value.got, acc, node, e);
    }
  }

  lemma {:induction false} MapOver(raw: seq<string>, lines: seq<Line>, pos: nat, n: nat, children: seq<Node>)
    requires |raw| == |lines| && Over(lines, pos, n)
    ensures MapTail(raw, lines, pos, n, children) == Ok(Read(children, lines, pos))
  {
  }

  lemma {:induction false} KeysGrow(acc: seq<Node>, node: Node, e: Entries)
    requires e.Entry? && PlainEntries(e) && NewKeys(acc, e) && node.key == Some(e.key)
    ensures NewKeys(acc + [node], e.rest)
  {
    forall k | k in Keys(e.rest)
      ensures !HasKey(acc + [node], k)
    {
      assert k in Keys(e) && k != e.key;
      assert !HasKey(acc, k);
    }
  }

  /** What follows a sequence: the end, a line indented less, or one as deep that is no item. */
  ghost predicate SeqEnd(lines: seq<Line>, p: nat, n: nat) {
    Over(lines, p, n) || (p < |lines| && lines[p].text != "" && lines[p].indent == n && !IsDash(lines[p].text))
  }

  /** What follows an item: the end of the sequence, or its next dash. */
  ghost predicate ItemOver(lines: seq<Line>, p: nat, n: nat) {
    SeqEnd(lines, p, n) || (p < |lines| && lines[p].indent == n && IsDash(lines[p].text))
  }

  /** Rewriting `- key: value` in place turns the item's lines into its mapping's lines. */
  lemma {:induction false} RewriteLines(lines: seq<Line>, pos: nat, n: nat, e: Entries, line: Line)
    requires Lined(lines, pos, PrintItem(Mapping(e, false), n))
    requires line.indent == n + 2 && line.text == EntryText(e.key, e.value)
    ensures pos < |lines| && Lined(lines[pos := line], pos, PrintEntries(e, n + 2))
  {
    var ps, qs := PrintItem(Mapping(e, false), n), PrintEntries(e, n + 2);
    var lines1 := lines[pos := line];
    forall i | 0 <= i < |qs|
      ensures lines1[pos + i].indent == qs[i].indent && lines1[pos + i].text == qs[i].text
    {
      if i > 0 { assert qs[i] == ps[i]; }
    }
  }

  lemma {:induction false} MappingItem(raw: seq<string>, lines: seq<Line>, pos: nat, n: nat, e: Entries)
    requires |raw| == |lines| && PlainEntries(e) && Lined(lines, pos, PrintItem(Mapping(e, false), n))
    requires ItemOver(lines, pos + |PrintItem(Mapping(e, false), n)|, n)
    ensures pos < |lines| && IsDash(lines[pos].text)
    ensures ReadsTree(Yaml.Item(raw, lines, pos, n), Mapping(e, false), lines, pos + |PrintItem(Mapping(e, false), n)|)
    decreases e, 2
  {
    hide IsSpace, IsDash, SplitKey, EntryText, MapTail, MapBlock, Shows, PlainKey, PlainTree, AfterDash, OpensMap;
    var ps, qs := PrintItem(Mapping(e, false), n), PrintEntries(e, n + 2);
    var text := EntryText(e.key, e.value);
    var end := pos + |ps|;
    assert lines[pos + 0].text == ps[0].text == "- " + text;
    EntrySplits(e.key, e.value);
    KeyStart(e.key);
    DashRest(text);
    var ln := lines[pos];
    var line := Line(ln.no, n + 2, text, ln.comment);
    RewriteLines(lines, pos, n, e, line);
    var lines1 := lines[pos := line];
    OverDeeper(lines, lines1, pos, end, n);
    EntriesRead(raw, lines1, pos, n + 2, e, []);
    MapBlockReads(raw, lines1, pos, n + 2, ln.no, e, end);
  }

  lemma KeyStart(key: string)
    requires PlainKey(key)
    ensures !IsSpace(key[0])
  {
  }

  lemma OverDeeper(lines: seq<Line>, lines1: seq<Line>, pos: nat, end: nat, n: nat)
    requires pos < |lines| && SameFrom(lines, lines1, pos + 1) && pos < end && ItemOver(lines, end, n)
    ensures Over(lines1, end, n + 2)
  {
  }

  lemma {:induction false} OtherItem(raw: seq<string>, lines: seq<Line>, pos: nat, n: nat, item: Tree)
    requires |raw| == |lines| && PlainTree(item) && !IsFlush(item) && !(item.Mapping? && !item.flow) && Lined(lines, pos, PrintItem(item, n))
    requires ItemOver(lines, pos + |PrintItem(item, n)|, n)
    ensures pos < |lines| && IsDash(lines[pos].text)
    ensures ReadsTree(Yaml.Item(raw, lines, pos, n), item, lines, pos + |PrintItem(item, n)|)
    decreases item, 1
  {
    hide IsSpace, IsDash, SplitKey, Value, Shows, PlainTree, AfterDash, OpensMap, Below, MapBlock, Inline, ValueOver, ItemOver;
    var head := [Printed(n, "-" + Inline(item))];
    var below := Below(item, n);
    assert PrintItem(item, n) == head + below;
    LinedSplit(lines, pos, head, below);
    assert lines[pos + 0].text == head[0].text;
    ItemRest(item);
    var ln := lines[pos];
    ItemValueOver(lines, pos + 1 + |below|, n, ln);
    ValueReads(raw, lines, pos + 1, item, ln, n);
    var r := Value(raw, lines, pos + 1, AfterDash(ln.text), ln, n);
    RelabelShows(r.value.got, r.value.got.(comment := ln.comment), item);
  }

  lemma {:induction false} ItemReads(raw: seq<string>, lines: seq<Line>, pos: nat, n: nat, item: Tree)
    requires |raw| == |lines| && PlainTree(item) && !IsFlush(item) && Lined(lines, pos, PrintItem(item, n))
    requires ItemOver(lines, pos + |PrintItem(item, n)|, n)
    ensures pos < |lines| && IsDash(lines[pos].text)
    ensures ReadsTree(Yaml.Item(raw, lines, pos, n), item, lines, pos + |PrintItem(item, n)|)
    decreases item, 2
  {
    hide IsDash, Shows, Yaml.Item, PrintItem, ItemOver, Lined;
    if item.Mapping? && !item.flow {
      MappingItem(raw, lines, pos, n, item.entries);
    } else {
      OtherItem(raw, lines, pos, n, item);
    }
  }

  lemma ItemValueOver(lines: seq<Line>, p: nat, n: nat, ln: Line)
    requires ItemOver(lines, p, n) && IsDash(ln.text)
    ensures ValueOver(lines, p, n, ln)
  {
  }

  lemma {:induction false} MoreItems(got: seq<Node>, acc: seq<Node>, node: Node, items: Items)
    requires acc + [node] <= got && Shows(node, items.item)
    requires if items.LastItem? then got == acc + [node] else ShowsItems(got[|acc| + 1..], items.rest)
    ensures acc <= got && ShowsItems(got[|acc|..], items)
  {
    var shown := got[|acc|..];
    assert got[|acc|] == node;
    assert shown[0] == node && shown[1..] == got[|acc| + 1..];
  }

  lemma {:induction false} SeqOver(raw: seq<string>, lines: seq<Line>, pos: nat, n: nat, items: seq<Node>)
    requires |raw| == |lines| && SeqEnd(lines, pos, n)
    ensures SeqTail(raw, lines, pos, n, items) == Ok(Read(items, lines, pos))
  {
  }

  lemma {:induction false} SeqStep(raw: seq<string>, lines: seq<Line>, pos: nat, n: nat, acc: seq<Node>)
    requires |raw| == |lines| && pos < |lines| && lines[pos].indent == n && IsDash(lines[pos].text)
    requires Yaml.Item(raw, lines, pos, n).Ok?
    ensures var r := Yaml.Item(raw, lines, pos, n).value;
      SeqTail(raw, lines, pos, n, acc) == SeqTail(raw, r.lines, r.pos, n, acc + [r.got])
  {
    hide Yaml.Item;
  }

  /** The lines of a first item and those of the items after it. */
  lemma ItemLines(lines: seq<Line>, pos: nat, n: nat, items: Items) returns (head: seq<Printed>, tail: seq<Printed>)
    requires Lined(lines, pos, PrintItems(items, n)) && SeqEnd(lines, pos + |PrintItems(items, n)|, n)
    ensures head == PrintItem(items.item, n) && tail == if items.LastItem? then [] else PrintItems(items.rest, n)
    ensures |PrintItems(items, n)| == |head| + |tail|
    ensures pos < |lines| && lines[pos].indent == n
    ensures Lined(lines, pos, head) && Lined(lines, pos + |head|, tail) && ItemOver(lines, pos + |head|, n)
  {
    head, tail := PrintItem(items.item, n), if items.LastItem? then [] else PrintItems(items.rest, n);
    assert PrintItems(items, n) == head + tail;
    hide PrintItem, PrintItems, IsDash, Lined;
    LinedSplit(lines, pos, head, tail);
    LinedFirst(lines, pos, head);
    if items.Item? { LinedFirst(lines, pos + |head|, tail); }
  }

  lemma {:induction false} ItemsRead(raw: seq<string>, lines: seq<Line>, pos: nat, n: nat, items: Items, acc: seq<Node>)
    requires |raw| == |lines| && PlainItems(items)
    requires Lined(lines, pos, PrintItems(items, n)) && SeqEnd(lines, pos + |PrintItems(items, n)|, n)
    ensures ReadsItems(SeqTail(raw, lines, pos, n, acc), acc, items, lines, pos + |PrintItems(items, n)|)
    decreases items, 3
  {
    hide PlainTree, Shows, SeqTail, ShowsItems, Yaml.Item, IsDash, PrintItem, PrintItems, Lined;
    var head, tail := ItemLines(lines, pos, n, items);
    var mid := pos + |head|;
    ItemReads(raw, lines, pos, n, items.item);
    SeqStep(raw, lines, pos, n, acc);
    var r := Yaml.Item(raw, lines, pos, n).value;
    if items.LastItem? {
      SeqOver(raw, r.lines, mid, n, acc + [r.got]);
      MoreItems(acc + [r.got], acc, r.got, items);
    } else {
      LinedLater(lines, r.lines, mid, mid, tail);
      ItemsRead(raw, r.lines, mid, n, items.rest, acc + [r.got]);
      MoreItems(SeqTail(raw, r.lines, mid, n, acc + [r.got]).value.got, acc, r.got, items);
    }
  }

  // ---- from raw lines

  /** A text the line scanner leaves alone. */
  ghost predicate GoodText(text: string) {
    text != [] && !IsSpace(text[0]) && !IsSpace(text[|text| - 1]) && CommentAt(text, 0, None, ' ').None? && text != "---" && text != "..."
  }

  ghost predicate AllGood(ps: seq<Printed>) {
    forall i :: 0 <= i < |ps| ==> GoodText(ps[i].text)
  }

  lemma {:induction false} IndentOf(n: nat, text: string)
    requires text != [] && text[0] != ' '
    ensures Indent(Spaces(n) + text) == n
  {
    var raw := Spaces(n) + text;
    assert raw[n] == text[0];
  }

  /** A printed line is scanned as its indentation and text. */
  lemma LineScans(no: nat, n: nat, text: string)
    requires GoodText(text)
    ensures ScanLine(no, Spaces(n) + text) == Ok(Line(no, n, text, None))
  {
    SpaceIsSpace();
    hide IsSpace;
    var raw := Spaces(n) + text;
    IndentOf(n, text);
    assert raw[n..] == text;
    assert '\t' !in raw[..n] by { assert raw[..n] == Spaces(n); }
    assert RStrip(text) == text;
  }

  lemma HashConcat(a: string, b: string)
    requires a != [] && NoComment(a) && NoComment(b)
    ensures NoComment(a + b)
  {
    var s := a + b;
    if HashIn(s, ' ') {
      var j :| HashAt(s, ' ', j);
      if j < |a| {
        assert HashAt(a, ' ', j);
      } else {
        assert b[j - |a|] == '#';
        assert HashAt(b, ' ', j - |a|);
      }
    }
  }

  lemma ColonDash()
    ensures !IsSpace(':') && !IsSpace('-')
  {
  }

  /** The scan finds no comment in a value after `a` and a space, if it finds none in the value itself. */
  lemma {:induction false} SpacedQuiet(a: string, s: string)
    requires a != [] && NoComment(a) && NoQuotes(a) && CommentAt(s, 0, None, ' ').None?
    ensures CommentAt(a + [' '] + s, 0, None, ' ').None?
  {
    hide HashIn;
    var front := a + [' '];
    var text := front + s;
    assert text[0..|a|] == a && text[|a|] == ' ';
    CommentPass(text, 0, |a|, ' ');
    CommentShift(front, s, 0, None, ' ');
  }

  lemma {:induction false} NoHashText(s: string)
    requires NoComment(s)
    ensures CommentAt(s, 0, None, ' ').None?
  {
    hide HashIn;
    assert s[0..] == s;
    NoHashNone(s, 0, None, ' ');
  }

  lemma SpaceNoComment()
    ensures NoComment([' ']) && NoComment("-")
  {
  }

  /** Texts joined by a space. */
  lemma {:induction false} SpacedGood(a: string, s: string)
    requires a != [] && !IsSpace(a[0]) && NoComment(a) && s != [] && !IsSpace(s[|s| - 1])
    requires NoComment(s) || (NoQuotes(a) && CommentAt(s, 0, None, ' ').None?)
    ensures GoodText(a + [' '] + s)
  {
    hide IsSpace, NoComment;
    var text := a + [' '] + s;
    assert text[0] == a[0] && text[|a|] == ' ' && text[|text| - 1] == s[|s| - 1];
    if NoComment(s) {
      SpaceNoComment();
      HashConcat(a, [' ']);
      HashConcat(a + [' '], s);
      NoHashText(text);
    } else {
      SpacedQuiet(a, s);
    }
  }

  lemma KeyPartGood(key: string)
    requires PlainKey(key)
    ensures !IsSpace(key[0]) && NoComment(key + ":") && GoodText(key + ":")
  {
    hide IsSpace, Contains, IsLineBreak, IsDash;
    ColonDash();
    var text := key + ":";
    assert text[0] == key[0] && text[|key|] == ':';
    assert forall i :: 0 <= i < |text| ==> text[i] != '#';
    NoHashText(text);
  }

  /** No comment is found in a value on one line. */
  lemma {:induction false} InlineQuiet(t: Tree)
    requires PlainTree(t) && IsInline(t)
    ensures CommentAt(InlineText(t), 0, None, ' ').None?
  {
    hide IsSpace, HashIn, HashAfterQuote, SplitKey, IsBlockScalar, IsLineBreak, Commas, FlowEntriesOk, FlowItemsOk, CommentAt;
    if t.Leaf? && t.quote == Single {
      SingleExactly(t.text);
    } else if t.Leaf? && t.quote == Double {
      assert InlineText(t)[0..] == InlineText(t);
      DoubleQuiet(InlineText(t), 0, t.text, ' ');
    } else {
      NoHashText(InlineText(t));
    }
  }

  lemma KeyColonQuotes(key: string)
    ensures NoQuotes(key) ==> NoQuotes(key + ":")
  {
  }

  lemma {:induction false} EntryTextGood(key: string, value: Tree)
    requires PlainKey(key) && PlainTree(value) && (NoQuotes(key) || NoComment(InlineText(value)))
    ensures GoodText(EntryText(key, value))
  {
    KeyPartGood(key);
    hide PlainKey, IsSpace, PlainTree, InlineText, GoodText, NoComment, CommentAt, NoQuotes;
    KeyColonQuotes(key);
    var s := InlineText(value);
    InlineEnds(value);
    if IsInline(value) {
      InlineQuiet(value);
      SpacedGood(key + ":", s);
      assert key + ":" + ([' '] + s) == key + ":" + [' '] + s;
    } else {
      assert key + ":" + "" == key + ":";
    }
  }

  lemma DashTextGood(x: string)
    requires GoodText(x)
    ensures GoodText("- " + x)
  {
    hide IsSpace, NoComment, CommentAt;
    ColonDash();
    SpaceNoComment();
    assert "-" + [' '] + x == "- " + x;
    SpacedGood("-", x);
  }

  lemma {:induction false} BelowGood(t: Tree, n: nat)
    requires PlainTree(t)
    ensures AllGood(Below(t, n))
    decreases t, 0
  {
    if t.Mapping? && !t.flow { EntriesGood(t.entries, n + 2); }
    if t.Sequence? && t.layout != Bracketed { ItemsGood(t.items, if t.layout == Flush then n else n + 2); }
  }

  lemma {:induction false} EntriesGood(e: Entries, n: nat)
    requires PlainEntries(e)
    ensures AllGood(PrintEntries(e, n))
    decreases e, 1
  {
    hide GoodText, EntryText, PlainKey, PlainTree, NoQuotes, NoComment, InlineText;
    EntryTextGood(e.key, e.value);
    BelowGood(e.value, n);
    if e.Entry? { EntriesGood(e.rest, n); }
  }

  lemma {:induction false} ItemGood(item: Tree, n: nat)
    requires PlainTree(item)
    ensures AllGood(PrintItem(item, n))
    decreases item, 1
  {
    if item.Mapping? && !item.flow {
      EntriesGood(item.entries, n + 2);
      hide GoodText, EntryText;
      DashTextGood(PrintEntries(item.entries, n + 2)[0].text);
    } else {
      BelowGood(item, n);
      ItemTextGood(item);
      hide GoodText;
    }
  }

  lemma {:induction false} ItemTextGood(item: Tree)
    requires PlainTree(item) && !(item.Mapping? && !item.flow)
    ensures GoodText("-" + Inline(item))
  {
    hide IsSpace, PlainTree, InlineText, CommentAt, NoComment;
    ColonDash();
    SpaceNoComment();
    InlineEnds(item);
    if IsInline(item) {
      InlineQuiet(item);
      assert "-" + ([' '] + InlineText(item)) == "-" + [' '] + InlineText(item);
      SpacedGood("-", InlineText(item));
    } else {
      assert "-" + "" == "-";
      NoHashText("-");
    }
  }

  lemma {:induction false} ItemsGood(items: Items, n: nat)
    requires PlainItems(items)
    ensures AllGood(PrintItems(items, n))
    decreases items, 2
  {
    hide GoodText, PlainTree, PrintItem;
    ItemGood(items.item, n);
    if items.Item? { ItemsGood(items.rest, n); }
  }

  lemma {:induction false} RenderScans(ps: seq<Printed>, no: nat)
    requires AllGood(ps)
    ensures Scan(Render(ps), no).Ok?
    ensures forall i :: 0 <= i < |ps| ==> Scan(Render(ps), no).value[i] == Line(no + i, ps[i].indent, ps[i].text, None)
    decreases |ps|
  {
    hide GoodText, ScanLine;
    if ps != [] {
      LineScans(no, ps[0].indent, ps[0].text);
      assert Render(ps)[1..] == Render(ps[1..]);
      RenderScans(ps[1..], no + 1);
    }
  }

  /** A document: a mapping or sequence in block style. */
  ghost predicate IsDocument(t: Tree) {
    PlainTree(t) && ((t.Mapping? && !t.flow) || (t.Sequence? && t.layout == Indented))
  }

  function Print(t: Tree): seq<Printed>
    requires t.Mapping? || t.Sequence?
  {
    if t.Mapping? then PrintEntries(t.entries, 0) else PrintItems(t.items, 0)
  }

  /** Reading what a tree is printed as gives the tree back. */
  lemma {:induction false} RoundTrip(t: Tree)
    requires IsDocument(t)
    ensures Parse(Render(Print(t))).Ok? && Shows(Parse(Render(Print(t))).value, t)
  {
    hide GoodText, Scan, Shows, MapTail, SeqTail, PrintEntries, PrintItems, PlainEntries, PlainItems, Block;
    var ps := Print(t);
    var raw := Render(ps);
    if t.Mapping? { EntriesGood(t.entries, 0); } else { ItemsGood(t.items, 0); }
    RenderScans(ps, 1);
    var lines := Scan(raw, 1).value;
    GoodNotEmpty(ps[0].text);
    assert Lined(lines, 0, ps);
    assert Skip(lines, 0) == 0;
    if t.Mapping? { MappingReads(raw, lines, t.entries); } else { SequenceReads(raw, lines, t.items); }
  }

  lemma GoodNotEmpty(text: string)
    requires GoodText(text)
    ensures text != ""
  {
  }

  /** The whole buffer is one printed mapping. */
  lemma {:induction false} MappingReads(raw: seq<string>, lines: seq<Line>, e: Entries)
    requires PlainEntries(e) && |raw| == |lines| == |PrintEntries(e, 0)| && Lined(lines, 0, PrintEntries(e, 0))
    ensures lines != [] && ReadsTree(Block(raw, lines, 0, 0), Mapping(e, false), lines, |lines|)
  {
    hide Shows, MapTail, PlainEntries, IsDash;
    assert lines[0 + 0].text == PrintEntries(e, 0)[0].text;
    FirstNotDash(e);
    EntriesRead(raw, lines, 0, 0, e, []);
    MapBlockReads(raw, lines, 0, 0, lines[0].no, e, |lines|);
  }

  /** The whole buffer is one printed sequence. */
  lemma {:induction false} SequenceReads(raw: seq<string>, lines: seq<Line>, items: Items)
    requires PlainItems(items) && |raw| == |lines| == |PrintItems(items, 0)| && Lined(lines, 0, PrintItems(items, 0))
    ensures lines != [] && ReadsTree(Block(raw, lines, 0, 0), Sequence(items, Indented), lines, |lines|)
  {
    hide Shows, SeqTail, PlainItems, IsDash;
    assert lines[0 + 0].text == PrintItems(items, 0)[0].text;
    ItemsRead(raw, lines, 0, 0, items, []);
    SeqBlockReads(raw, lines, 0, 0, lines[0].no, items, Indented, |lines|);
  }

  lemma {:induction false} FirstNotDash(e: Entries)
    requires PlainEntries(e)
    ensures !IsDash(PrintEntries(e, 0)[0].text) && NewKeys([], e)
  {
    EntrySplits(e.key, e.value);
  }

  lemma {:induction false} SeqBlockReads(raw: seq<string>, lines: seq<Line>, pos: nat, n: nat, no: nat, items: Items,
                                         layout: Layout, end: nat)
    requires |raw| == |lines| && pos <= |lines| && ReadsItems(SeqTail(raw, lines, pos, n, []), [], items, lines, end)
    ensures ReadsTree(SeqBlock(raw, lines, pos, n, no), Sequence(items, layout), lines, end)
  {
    hide SeqTail;
    var got := SeqTail(raw, lines, pos, n, []).value.got;
    assert got[0..] == got;
  }
}
