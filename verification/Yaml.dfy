/** The YAML subset reader of `check_workflows.py`, as functions of its line buffer and position. */
module Yaml {
  import opened Wrappers
  import opened Text

  /** A result, an `Unsupported` naming a line, or an IndexError. */
  datatype Outcome<+T> = Ok(value: T) | Unsupported(line: nat) | Crash

  datatype Line = Line(no: nat, indent: nat, text: string, comment: Option<string>)

  datatype Kind = NullNode | ScalarNode | MapNode | SeqNode

  datatype Node = Node(
    line: nat, key: Option<string>, value: Option<string>, comment: Option<string>, kind: Kind,
    children: seq<Node>, items: seq<Node>, valueLine: nat)

  // ---- lines

  /** The number of leading spaces. */
  function Indent(raw: string): (n: nat)
    ensures n <= |raw| && (forall i :: 0 <= i < n ==> raw[i] == ' ') && (n < |raw| ==> raw[n] != ' ')
  {
    if raw != [] && raw[0] == ' ' then 1 + Indent(raw[1..]) else 0
  }

  predicate OpensQuote(prev: char) {
    prev == ' ' || prev == '\t' || prev == '[' || prev == '{' || prev == ',' || prev == ':'
  }

  /** Where the comment of `s` starts, scanning from `i` inside `quote`, after `prev`. */
  function CommentAt(s: string, i: nat, quote: Option<char>, prev: char): (r: Option<nat>)
    requires i <= |s|
    ensures r.Some? ==> i <= r.value < |s| && s[r.value] == '#'
    decreases |s| - i
  {
    if i == |s| then None
    else if quote.Some? then
      if s[i] != quote.value then CommentAt(s, i + 1, quote, s[i])
      else if s[i] == '\'' && i + 1 < |s| && s[i + 1] == '\'' then CommentAt(s, i + 1, quote, prev)
      else if s[i] == '"' && prev == '\\' then CommentAt(s, i + 1, quote, s[i])
      else CommentAt(s, i + 1, None, s[i])
    else if (s[i] == '"' || s[i] == '\'') && OpensQuote(prev) then CommentAt(s, i + 1, Some(s[i]), s[i])
    else if s[i] == '#' && (prev == ' ' || prev == '\t') then Some(i)
    else CommentAt(s, i + 1, None, s[i])
  }

  /** `_strip_comment`. */
  function StripComment(s: string): (string, Option<string>) {
    var at := CommentAt(s, 0, None, ' ');
    if at.None? then (RStrip(s), None) else (RStrip(s[..at.value]), Some(Strip(s[at.value + 1..])))
  }

  /** One line of the constructor's loop. */
  function ScanLine(no: nat, raw: string): (r: Outcome<Line>)
    ensures !r.Crash? && (r.Ok? ==> r.value.no == no)
  {
    var indent := Indent(raw);
    var stripped := raw[indent..];
    if '\t' in raw[..indent] then Unsupported(no)
    else if RStrip(stripped) == "---" || RStrip(stripped) == "..." then Unsupported(no)
    else
      var (body, comment) := StripComment(stripped);
      Ok(Line(no, indent, body, comment))
  }

  /** The line buffer of `raw`, numbered from `no`. */
  function Scan(raw: seq<string>, no: nat): (r: Outcome<seq<Line>>)
    ensures r.Ok? ==> |r.value| == |raw| && forall i :: 0 <= i < |raw| ==> r.value[i].no == no + i
    ensures !r.Crash?
  {
    if raw == [] then Ok([]) else
    match ScanLine(no, raw[0])
    case Ok(line) =>
      (match Scan(raw[1..], no + 1)
       case Ok(rest) => Ok([line] + rest)
       case Unsupported(n) => Unsupported(n)
       case Crash => Crash)
    case Unsupported(n) => Unsupported(n)
    case Crash => Crash
  }

  // ---- keys and scalars

  /** The first `c` in `s` at or after `i`. */
  function Find(s: string, c: char, i: nat): (r: Option<nat>)
    requires i <= |s|
    ensures r.Some? ==> i <= r.value < |s| && s[r.value] == c && forall k :: i <= k < r.value ==> s[k] != c
    ensures r.None? ==> forall k :: i <= k < |s| ==> s[k] != c
    decreases |s| - i
  {
    if i == |s| then None else if s[i] == c then Some(i) else Find(s, c, i + 1)
  }

  predicate Contains(s: string, t: string) {
    |t| <= |s| && (s[..|t|] == t || (s != [] && Contains(s[1..], t)))
  }

  /** `_split_key`: the key and the stripped rest of a mapping entry. A plain key runs to the first
      colon, holds no `#` before its last character, and is followed by a space or the end. */
  function SplitKey(text: string): Option<(string, string)> {
    if text == [] || text[0] == '[' || text[0] == '{' then None
    else if text[0] == '"' || text[0] == '\'' then
      var end := Find(text, text[0], 1);
      if end.None? then None else
      var after := text[end.value + 1..];
      if after == ":" || (|after| >= 2 && after[0] == ':' && after[1] == ' ')
      then Some((text[1..end.value], Strip(after[1..]))) else None
    else
      var colon := Find(text, ':', 0);
      if colon.None? || colon.value == 0 then None else
      var key, after := text[..colon.value], text[colon.value + 1..];
      if IsSpace(key[|key| - 1]) || '#' in key[..|key| - 1] || Contains(key, "${{") then None
      else if after != [] && !IsSpace(after[0]) then None
      else Some((key, Strip(after)))
  }

  /** The escapes of a double-quoted scalar. */
  function Unescape(s: string): string {
    if |s| >= 2 && s[0] == '\\' && (s[1] == '"' || s[1] == '\\' || s[1] == '/' || s[1] == 'n' || s[1] == 't') then
      [if s[1] == 'n' then '\n' else if s[1] == 't' then '\t' else s[1]] + Unescape(s[2..])
    else if s == [] then [] else [s[0]] + Unescape(s[1..])
  }

  /** `replace("''", "'")`. */
  function Undouble(s: string): string {
    if |s| >= 2 && s[0] == '\'' && s[1] == '\'' then ['\''] + Undouble(s[2..])
    else if s == [] then [] else [s[0]] + Undouble(s[1..])
  }

  /** `_scalar`; it reads the first character, so an empty text is an IndexError. */
  function Scalar(s: string, no: nat): Outcome<string> {
    if s == [] then Crash
    else if s[0] == '"' || s[0] == '\'' then
      if |s| < 2 || s[|s| - 1] != s[0] then Unsupported(no)
      else if s[0] == '"' then Ok(Unescape(s[1..|s| - 1])) else Ok(Undouble(s[1..|s| - 1]))
    else if s[0] == '&' || s[0] == '*' || s[0] == '!' then Unsupported(no)
    else Ok(s)
  }

  // ---- flow collections

  /** The scan of `_flow` at `i`: the parts so far, the current part, and the closing index. */
  function FlowScan(s: string, i: nat, depth: int, quote: Option<char>, parts: seq<string>, cur: string)
    : (seq<string>, string, Option<nat>)
    requires i <= |s|
    decreases |s| - i
  {
    if i == |s| then (parts, cur, None)
    else
      var c := s[i];
      if quote.Some? then FlowScan(s, i + 1, depth, if c == quote.value then None else quote, parts, cur + [c])
      else if c == '"' || c == '\'' then FlowScan(s, i + 1, depth, Some(c), parts, cur + [c])
      else if c == '[' || c == '{' then FlowScan(s, i + 1, depth + 1, None, parts, if depth == 0 then cur else cur + [c])
      else if c == ']' || c == '}' then
        if depth == 1 then (parts, cur, Some(i)) else FlowScan(s, i + 1, depth - 1, None, parts, cur + [c])
      else if c == ',' && depth == 1 then FlowScan(s, i + 1, depth, None, parts + [Strip(cur)], "")
      else FlowScan(s, i + 1, depth, None, parts, cur + [c])
  }

  function ScalarLeaf(no: nat, value: string, valueLine: nat): Node {
    Node(no, None, Some(value), None, ScalarNode, [], [], valueLine)
  }

  function FlowItems(parts: seq<string>, no: nat): Outcome<seq<Node>> {
    if parts == [] then Ok([])
    else if parts[0] == [] || parts[0][0] == '[' || parts[0][0] == '{' then Unsupported(no)
    else
      match Scalar(parts[0], no)
      case Ok(v) =>
        (match FlowItems(parts[1..], no)
         case Ok(rest) => Ok([ScalarLeaf(no, v, no)] + rest)
         case Unsupported(n) => Unsupported(n)
         case Crash => Crash)
      case Unsupported(n) => Unsupported(n)
      case Crash => Crash
  }

  /** A flow mapping's entries. The scalar is read before the empty value is looked at, so an entry
      without a value is an IndexError. */
  function FlowEntries(parts: seq<string>, no: nat): Outcome<seq<Node>> {
    if parts == [] then Ok([])
    else
      var kv := SplitKey(parts[0]);
      if kv.None? then Unsupported(no) else
      match Scalar(kv.value.1, no)
      case Ok(v) =>
        (match FlowEntries(parts[1..], no)
         case Ok(rest) => Ok([ScalarLeaf(no, v, no).(key := Some(kv.value.0))] + rest)
         case Unsupported(n) => Unsupported(n)
         case Crash => Crash)
      case Unsupported(n) => Unsupported(n)
      case Crash => Crash
  }

  /** `_flow`. */
  function Flow(s: string, no: nat): Outcome<Node>
    requires s != [] && (s[0] == '[' || s[0] == '{')
  {
    var (parts, cur, end) := FlowScan(s, 0, 0, None, [], "");
    var close := if s[0] == '[' then ']' else '}';
    if end.None? then Unsupported(no)
    else if end.value >= |s| || s[end.value] != close || Strip(s[end.value + 1..]) != [] then Unsupported(no)
    else
      var all := if Strip(cur) != [] then parts + [Strip(cur)] else parts;
      if close == ']' then
        match FlowItems(all, no)
        case Ok(items) => Ok(Node(no, None, None, None, SeqNode, [], items, 0))
        case Unsupported(n) => Unsupported(n)
        case Crash => Crash
      else
        match FlowEntries(all, no)
        case Ok(children) => Ok(Node(no, None, None, None, MapNode, children, [], 0))
        case Unsupported(n) => Unsupported(n)
        case Crash => Crash
  }

  // ---- block scalars

  /** The body of a block scalar from line `i` on: its lines and where it ends. `block` is the body's
      indentation, once known. */
  function BlockBody(raw: seq<string>, i: nat, indent: nat, block: Option<nat>, body: seq<string>, first: nat)
    : (r: (nat, seq<string>, nat))
    requires i <= |raw|
    ensures i <= r.0 <= |raw|
    decreases |raw| - i
  {
    if i == |raw| then (i, body, first)
    else if Strip(raw[i]) == [] then BlockBody(raw, i + 1, indent, block, body + [""], first)
    else
      var ind := Indent(raw[i]);
      if ind <= indent || (block.Some? && ind < block.value) then (i, body, first)
      else
        var at := if block.Some? then block.value else ind;
        BlockBody(raw, i + 1, indent, Some(at), body + [raw[i][at..]], if block.Some? then first else i + 1)
  }

  function DropEmptyTail(body: seq<string>): seq<string> {
    if body != [] && body[|body| - 1] == "" then DropEmptyTail(body[..|body| - 1]) else body
  }

  function Join(parts: seq<string>, sep: string): string {
    if parts == [] then "" else if |parts| == 1 then parts[0] else parts[0] + sep + Join(parts[1..], sep)
  }

  predicate IsBlockScalar(rest: string) {
    || (|rest| == 1 && (rest[0] == '|' || rest[0] == '>'))
    || (|rest| == 2 && (rest[0] == '|' || rest[0] == '>') && (rest[1] == '-' || rest[1] == '+'))
  }

  // ---- blocks

  /** The position of the next line with text. */
  function Skip(lines: seq<Line>, pos: nat): (p: nat)
    requires pos <= |lines|
    ensures pos <= p <= |lines| && (p < |lines| ==> lines[p].text != "")
    ensures forall i :: pos <= i < p ==> lines[i].text == ""
    decreases |lines| - pos
  {
    if pos < |lines| && lines[pos].text == "" then Skip(lines, pos + 1) else pos
  }

  predicate IsDash(text: string) {
    text == "-" || (|text| >= 2 && text[0] == '-' && text[1] == ' ')
  }

  predicate HasKey(children: seq<Node>, key: string) {
    exists i :: 0 <= i < |children| && children[i].key == Some(key)
  }

  /** A part read, and the buffer and position after it. */
  datatype Read<+T> = Read(got: T, lines: seq<Line>, pos: nat)

  ghost predicate Moved<T>(lines: seq<Line>, pos: nat, r: Outcome<Read<T>>) {
    r.Ok? ==> |r.value.lines| == |lines| && pos <= r.value.pos <= |lines|
  }

  function TextLength(lines: seq<Line>, pos: nat): nat {
    if pos < |lines| then |lines[pos].text| else 0
  }

  /** `ln.text[1:].lstrip()`. */
  function AfterDash(text: string): (rest: string)
    requires text != []
    ensures |rest| < |text|
  {
    LStrip(text[1..])
  }

  /** `- key: value` opens a mapping in place. */
  predicate OpensMap(rest: string): (b: bool)
    ensures b ==> rest != "" && rest != "-"
  {
    rest != [] && SplitKey(rest).Some? && rest[0] != '"' && rest[0] != '\'' && rest[0] != '[' && rest[0] != '{'
  }

  function Block(raw: seq<string>, lines: seq<Line>, pos: nat, indent: nat): (r: Outcome<Read<Node>>)
    requires |raw| == |lines| && pos < |lines|
    ensures Moved(lines, pos, r)
    decreases |lines| - pos, TextLength(lines, pos), 3
  {
    var ln := lines[pos];
    if IsDash(ln.text) then SeqBlock(raw, lines, pos, indent, ln.no) else MapBlock(raw, lines, pos, indent, ln.no)
  }

  function MapBlock(raw: seq<string>, lines: seq<Line>, pos: nat, indent: nat, no: nat): (r: Outcome<Read<Node>>)
    requires |raw| == |lines| && pos <= |lines|
    ensures Moved(lines, pos, r) && (r.Ok? && r.value.pos == pos ==> r.value.lines == lines)
    decreases |lines| - pos, TextLength(lines, pos), 2
  {
    match MapTail(raw, lines, pos, indent, [])
    case Ok(Read(children, lines', pos')) => Ok(Read(Node(no, None, None, None, MapNode, children, [], 0), lines', pos'))
    case Unsupported(n) => Unsupported(n)
    case Crash => Crash
  }

  function SeqBlock(raw: seq<string>, lines: seq<Line>, pos: nat, indent: nat, no: nat): (r: Outcome<Read<Node>>)
    requires |raw| == |lines| && pos <= |lines|
    ensures Moved(lines, pos, r)
    decreases |lines| - pos, TextLength(lines, pos), 2
  {
    match SeqTail(raw, lines, pos, indent, [])
    case Ok(Read(items, lines', pos')) => Ok(Read(Node(no, None, None, None, SeqNode, [], items, 0), lines', pos'))
    case Unsupported(n) => Unsupported(n)
    case Crash => Crash
  }

  /** The loop of `_map`, with the entries read so far. */
  function MapTail(raw: seq<string>, lines: seq<Line>, pos: nat, indent: nat, children: seq<Node>)
    : (r: Outcome<Read<seq<Node>>>)
    requires |raw| == |lines| && pos <= |lines|
    ensures Moved(lines, pos, r) && (r.Ok? && r.value.pos == pos ==> r.value.lines == lines)
    decreases |lines| - pos, TextLength(lines, pos), 0
  {
    var p := Skip(lines, pos);
    if p == |lines| || lines[p].indent < indent then Ok(Read(children, lines, p))
    else if lines[p].indent > indent then Unsupported(lines[p].no)
    else if IsDash(lines[p].text) then Ok(Read(children, lines, p))
    else
      var ln := lines[p];
      var kv := SplitKey(ln.text);
      if kv.None? || kv.value.0 == "<<" then Unsupported(ln.no) else
      match Value(raw, lines, p + 1, kv.value.1, ln, indent)
      case Ok(Read(node, lines', pos')) =>
        if HasKey(children, kv.value.0) then Unsupported(ln.no) else
        MapTail(raw, lines', pos', indent, children + [node.(key := Some(kv.value.0), line := ln.no, comment := ln.comment)])
      case Unsupported(n) => Unsupported(n)
      case Crash => Crash
  }

  /** The loop of `_seq`, with the items read so far. */
  function SeqTail(raw: seq<string>, lines: seq<Line>, pos: nat, indent: nat, items: seq<Node>)
    : (r: Outcome<Read<seq<Node>>>)
    requires |raw| == |lines| && pos <= |lines|
    ensures Moved(lines, pos, r)
    decreases |lines| - pos, TextLength(lines, pos), 1
  {
    var p := Skip(lines, pos);
    if p == |lines| || lines[p].indent < indent then Ok(Read(items, lines, p))
    else if lines[p].indent > indent then Unsupported(lines[p].no)
    else if !IsDash(lines[p].text) then Ok(Read(items, lines, p))
    else
      match Item(raw, lines, p, indent)
      case Ok(Read(node, lines', pos')) => SeqTail(raw, lines', pos', indent, items + [node])
      case Unsupported(n) => Unsupported(n)
      case Crash => Crash
  }

  /** One item of a sequence. A `- key: value` line is rewritten in place to `key: value` at the column
      of `key`, without moving on. */
  function Item(raw: seq<string>, lines: seq<Line>, pos: nat, indent: nat): (r: Outcome<Read<Node>>)
    requires |raw| == |lines| && pos < |lines| && IsDash(lines[pos].text)
    ensures Moved(lines, pos, r)
    ensures r.Ok? && r.value.pos == pos ==> TextLength(r.value.lines, pos) < TextLength(lines, pos)
    decreases |lines| - pos, TextLength(lines, pos), 0
  {
    var ln := lines[pos];
    var rest := AfterDash(ln.text);
    if OpensMap(rest) then
      var column := indent + (|ln.text| - |rest|);
      MapBlock(raw, lines[pos := Line(ln.no, column, rest, ln.comment)], pos, column, ln.no)
    else
      match Value(raw, lines, pos + 1, rest, ln, indent)
      case Ok(Read(node, lines', pos')) => Ok(Read(node.(comment := ln.comment), lines', pos'))
      case Unsupported(n) => Unsupported(n)
      case Crash => Crash
  }

  /** `_value`: what follows `key:` or `-` on line `ln`. */
  function Value(raw: seq<string>, lines: seq<Line>, pos: nat, rest: string, ln: Line, indent: nat): (r: Outcome<Read<Node>>)
    requires |raw| == |lines| && pos <= |lines|
    ensures Moved(lines, pos, r)
    decreases |lines| - pos, TextLength(lines, pos), 4
  {
    if rest != [] && (rest[0] == '&' || rest[0] == '*' || rest[0] == '!') then Unsupported(ln.no)
    else if rest == [] then
      var p := Skip(lines, pos);
      if p < |lines| && lines[p].indent > indent then Block(raw, lines, p, lines[p].indent)
      else if p < |lines| && lines[p].indent == indent && IsDash(lines[p].text) && !IsDash(ln.text) then
        SeqBlock(raw, lines, p, indent, lines[p].no)
      else Ok(Read(Node(ln.no, None, None, None, NullNode, [], [], ln.no), lines, p))
    else if IsBlockScalar(rest) then
      var (end, body, first) := BlockBody(raw, pos, indent, None, [], 0);
      var text := Join(DropEmptyTail(body), if rest[0] == '|' then "\n" else " ");
      Ok(Read(ScalarLeaf(ln.no, text, if first != 0 then first else ln.no), lines, end))
    else
      match (if rest[0] == '[' || rest[0] == '{' then Flow(rest, ln.no)
             else match Scalar(rest, ln.no)
                  case Ok(v) => Ok(ScalarLeaf(ln.no, v, 0))
                  case Unsupported(n) => Unsupported(n)
                  case Crash => Crash)
      case Ok(node) =>
        var p := Skip(lines, pos);
        if p < |lines| && lines[p].indent > indent then Unsupported(lines[p].no)
        else Ok(Read(node.(valueLine := ln.no), lines, p))
      case Unsupported(n) => Unsupported(n)
      case Crash => Crash
  }

  /** `parse`. */
  function Parse(raw: seq<string>): Outcome<Node> {
    match Scan(raw, 1)
    case Unsupported(n) => Unsupported(n)
    case Crash => Crash
    case Ok(lines) =>
      var p := Skip(lines, 0);
      if p == |lines| then Ok(Node(1, None, None, None, MapNode, [], [], 0)) else
      match Block(raw, lines, p, lines[p].indent)
      case Unsupported(n) => Unsupported(n)
      case Crash => Crash
      case Ok(Read(node, lines', pos')) =>
        var end := Skip(lines', pos');
        if end < |lines'| then Unsupported(lines'[end].no) else Ok(node)
  }
}
