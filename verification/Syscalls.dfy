/** The syscall table: what `parse` accepts, the code generated from it, and what that code does. */
module Syscalls {
  import opened Wrappers
  import opened Order

  // ---- Rust integers

  datatype RustType = I32 | U32 | I64 | U64 | Usize | Isize | U16

  const TWO16 := 0x1_0000
  const TWO31 := 0x8000_0000
  const TWO32 := 0x1_0000_0000
  const TWO63 := 0x8000_0000_0000_0000
  const TWO64 := 0x1_0000_0000_0000_0000

  predicate InRust(ty: RustType, v: int) {
    match ty
    case I32 => -TWO31 <= v < TWO31
    case U32 => 0 <= v < TWO32
    case I64 => -TWO63 <= v < TWO63
    case Isize => -TWO63 <= v < TWO63
    case U64 => 0 <= v < TWO64
    case Usize => 0 <= v < TWO64
    case U16 => 0 <= v < TWO16
  }

  function Signed(v: int, half: int): int
    requires half > 0
  {
    (v + half) % (2 * half) - half
  }

  /** `v as ty`: the value modulo the type's width, read in the type. */
  function Cast(ty: RustType, v: int): (r: int)
    ensures InRust(ty, r)
  {
    match ty
    case I32 => Signed(v, TWO31)
    case U32 => v % TWO32
    case I64 => Signed(v, TWO63)
    case Isize => Signed(v, TWO63)
    case U64 => v % TWO64
    case Usize => v % TWO64
    case U16 => v % TWO16
  }

  // ---- the table

  datatype CType = Int | UInt | Long | ULong | SizeT | OffT | PidT | UmodeT | Ptr

  function KernelRust(ty: CType): RustType {
    match ty
    case Int => I32
    case UInt => U32
    case Long => I64
    case ULong => U64
    case SizeT => Usize
    case OffT => I64
    case PidT => I32
    case UmodeT => U16
    case Ptr => U64
  }

  predicate IsSigned(ty: CType) {
    ty.Int? || ty.Long? || ty.OffT? || ty.PidT?
  }

  datatype Arg = Arg(name: string, ty: CType)

  /** A `[[syscall]]` table of the TOML file. */
  datatype RawRow = RawRow(name: string, x86: Option<int>, aarch64: Option<int>, args: seq<Arg>, order: Option<seq<string>>)

  /** Register `j` of aarch64 holds `args[order[j]]`. */
  datatype Row = Row(name: string, args: seq<Arg>, x86: Option<nat>, aarch64: Option<nat>, order: seq<nat>)

  datatype Arch = X86 | Aarch64

  function Nr(r: Row, arch: Arch): Option<nat> {
    if arch.X86? then r.x86 else r.aarch64
  }

  const MAX_ARGS := 6

  predicate IsRustKeyword(s: string) {
    || s == "as" || s == "async" || s == "await" || s == "break" || s == "const" || s == "continue"
    || s == "crate" || s == "dyn" || s == "else" || s == "enum" || s == "extern" || s == "false" || s == "fn"
    || s == "for" || s == "gen" || s == "if" || s == "impl" || s == "in" || s == "let" || s == "loop"
    || s == "match" || s == "mod" || s == "move" || s == "mut" || s == "pub" || s == "ref" || s == "return"
    || s == "self" || s == "Self" || s == "static" || s == "struct" || s == "super" || s == "trait"
    || s == "true" || s == "try" || s == "type" || s == "unsafe" || s == "use" || s == "where" || s == "while"
    || s == "abstract" || s == "become" || s == "box" || s == "do" || s == "final" || s == "macro"
    || s == "override" || s == "priv" || s == "typeof" || s == "unsized" || s == "virtual" || s == "yield"
  }

  predicate IsNameChar(c: char) {
    'a' <= c <= 'z' || '0' <= c <= '9' || c == '_'
  }

  /** What the name pattern's `$` lets pass: a newline at the end. */
  function Unterminated(s: string): string {
    if s != [] && s[|s| - 1] == '\n' then s[..|s| - 1] else s
  }

  predicate NameOk(s: string) {
    && Unterminated(s) != [] && !('0' <= s[0] <= '9')
    && (forall i :: 0 <= i < |Unterminated(s)| ==> IsNameChar(s[i])) && !IsRustKeyword(s)
  }

  function ArgNames(args: seq<Arg>): (names: seq<string>)
    ensures |names| == |args| && forall i :: 0 <= i < |args| ==> names[i] == args[i].name
  {
    seq(|args|, i requires 0 <= i < |args| => args[i].name)
  }

  /** `arg_names.index(n)`. */
  function IndexOf(names: seq<string>, n: string): (i: nat)
    requires n in names
    ensures i < |names| && names[i] == n
  {
    if names[0] == n then 0 else 1 + IndexOf(names[1..], n)
  }

  /** `aarch64_order` is a permutation of the arguments. */
  predicate OrderOk(order: Option<seq<string>>, names: seq<string>) {
    order.Some? ==> Sort(NameLess, order.value) == Sort(NameLess, names)
  }

  predicate NumberOk(nr: Option<int>) {
    nr.Some? ==> nr.value >= 0
  }

  /** What `parse` asks of one row by itself. */
  predicate RowOk(raw: RawRow) {
    && NameOk(raw.name) && NumberOk(raw.x86) && NumberOk(raw.aarch64) && |raw.args| <= MAX_ARGS
    && (forall i :: 0 <= i < |raw.args| ==> NameOk(raw.args[i].name))
    && Distinct(ArgNames(raw.args)) && OrderOk(raw.order, ArgNames(raw.args))
  }

  predicate Distinct(names: seq<string>) {
    forall i, j :: 0 <= i < j < |names| ==> names[i] != names[j]
  }

  /** Two rows that cannot stand in one table. */
  predicate Clash(a: RawRow, b: RawRow) {
    || a.name == b.name
    || (a.x86.Some? && a.x86 == b.x86)
    || (a.aarch64.Some? && a.aarch64 == b.aarch64)
  }

  ghost predicate NoClash(raws: seq<RawRow>) {
    forall i, j :: 0 <= i < j < |raws| ==> !Clash(raws[i], raws[j])
  }

  /** What `parse` asks of the rows. */
  ghost predicate Accepts(raws: seq<RawRow>) {
    raws != [] && (forall i :: 0 <= i < |raws| ==> RowOk(raws[i])) && NoClash(raws)
  }

  lemma {:induction false} OrderNames(order: seq<string>, names: seq<string>)
    requires Sort(NameLess, order) == Sort(NameLess, names)
    ensures |order| == |names| && forall n :: n in order <==> n in names
  {
    SameElements(order, names);
  }

  /** The number an architecture's column gives a row. */
  function Listed(raw: RawRow, arch: Arch): Option<int> {
    match arch
    case X86 => raw.x86
    case Aarch64 => raw.aarch64
  }

  predicate SameNumber(nr: Option<int>, parsed: Option<nat>) {
    (nr.Some? <==> parsed.Some?) && (nr.Some? ==> nr.value == parsed.value)
  }

  /** `r` says what the table's row says: its name, its arguments, each architecture's number, and as the
      argument in register `j` the one `aarch64_order[j]` names, or argument `j` where no order is given. */
  ghost predicate ReadsRow(raw: RawRow, r: Row) {
    && r.name == raw.name && r.args == raw.args
    && SameNumber(raw.x86, r.x86) && SameNumber(raw.aarch64, r.aarch64)
    && |r.order| == |raw.args| && (raw.order.Some? ==> |raw.order.value| == |raw.args|)
    && forall j :: 0 <= j < |r.order| ==>
         r.order[j] < |raw.args| && raw.args[r.order[j]].name == RegisterName(raw, j)
  }

  /** The name of the argument that goes in aarch64 register `j`. */
  function RegisterName(raw: RawRow, j: nat): string
    requires j < |raw.args| && (raw.order.Some? ==> |raw.order.value| == |raw.args|)
  {
    if raw.order.Some? then raw.order.value[j] else raw.args[j].name
  }

  /** The parsed row. */
  function RowOf(raw: RawRow): (r: Row)
    requires RowOk(raw)
    ensures |r.order| == |r.args|
  {
    Row(raw.name, raw.args, ToNat(raw.x86), ToNat(raw.aarch64), OrderOf(raw.order, ArgNames(raw.args)))
  }

  function OrderOf(order: Option<seq<string>>, names: seq<string>): (r: seq<nat>)
    requires OrderOk(order, names)
    ensures |r| == |names|
  {
    if order.None? then seq(|names|, i => i) else
      OrderNames(order.value, names);
      seq(|order.value|, i requires 0 <= i < |order.value| => IndexOf(names, order.value[i]))
  }

  function ToNat(nr: Option<int>): Option<nat>
    requires NumberOk(nr)
  {
    if nr.None? then None else Some(nr.value)
  }

  lemma RowIsRead(raw: RawRow)
    requires RowOk(raw)
    ensures ReadsRow(raw, RowOf(raw))
  {
    hide NameOk, Distinct;
    if raw.order.Some? {
      OrderNames(raw.order.value, ArgNames(raw.args));
    }
  }

  /** The argument names of a row are identifiers, each once. */
  method CheckArgs(args: seq<Arg>) returns (ok: bool)
    ensures ok <==> (forall i :: 0 <= i < |args| ==> NameOk(args[i].name)) && Distinct(ArgNames(args))
  {
    hide NameOk;
    var names: seq<string> := [];
    for i := 0 to |args|
      invariant names == ArgNames(args)[..i] && Distinct(names)
      invariant forall k :: 0 <= k < i ==> NameOk(args[k].name)
    {
      if !NameOk(args[i].name) || args[i].name in names {
        assert args[i].name in names ==> exists k :: 0 <= k < i && ArgNames(args)[k] == ArgNames(args)[i];
        return false;
      }
      names := names + [args[i].name];
    }
    assert ArgNames(args)[..|args|] == ArgNames(args);
    ok := true;
  }

  /** What the loop of `parse` has seen of the names and of each architecture's numbers. */
  datatype Seen = Seen(names: set<string>, x86: set<int>, aarch64: set<int>)

  function SeenWith(s: Seen, raw: RawRow): Seen {
    Seen(s.names + {raw.name},
         if raw.x86.Some? then s.x86 + {raw.x86.value} else s.x86,
         if raw.aarch64.Some? then s.aarch64 + {raw.aarch64.value} else s.aarch64)
  }

  predicate Repeats(s: Seen, raw: RawRow) {
    || raw.name in s.names
    || (raw.x86.Some? && raw.x86.value in s.x86)
    || (raw.aarch64.Some? && raw.aarch64.value in s.aarch64)
  }

  /** `s` is what `raws` hold. */
  ghost predicate HasSeen(s: Seen, raws: seq<RawRow>) {
    forall raw :: Repeats(s, raw) <==> exists k :: 0 <= k < |raws| && Clash(raws[k], raw)
  }

  lemma SeenGrows(s: Seen, raws: seq<RawRow>, raw: RawRow)
    requires HasSeen(s, raws)
    ensures HasSeen(SeenWith(s, raw), raws + [raw])
  {
    var raws' := raws + [raw];
    forall other
      ensures Repeats(SeenWith(s, raw), other) <==> exists k :: 0 <= k < |raws'| && Clash(raws'[k], other)
    {
      assert Repeats(SeenWith(s, raw), other) <==> Repeats(s, other) || Clash(raw, other);
      if Repeats(s, other) {
        var k :| 0 <= k < |raws| && Clash(raws[k], other);
        assert Clash(raws'[k], other);
      }
      if Clash(raw, other) {
        assert Clash(raws'[|raws|], other);
      }
    }
  }

  /** `parse`: the rows in order, or `None` for a TableError. */
  method Parse(raws: seq<RawRow>) returns (rows: Option<seq<Row>>)
    ensures rows.Some? <==> Accepts(raws)
    ensures rows.Some? ==> |rows.value| == |raws| && forall i :: 0 <= i < |raws| ==> ReadsRow(raws[i], rows.value[i])
  {
    hide NameOk, OrderOk, RowOf, ReadsRow, Distinct, Clash, Repeats, SeenWith, HasSeen;
    if raws == [] {
      return None;
    }
    var out: seq<Row> := [];
    var seen := Seen({}, {}, {});
    NothingSeen();
    for i := 0 to |raws|
      invariant |out| == i && HasSeen(seen, raws[..i]) && NoClash(raws[..i])
      invariant forall k :: 0 <= k < i ==> RowOk(raws[k]) && ReadsRow(raws[k], out[k])
    {
      var raw := raws[i];
      var argsOk := CheckArgs(raw.args);
      if Repeats(seen, raw) {
        RepeatClashes(seen, raws, i);
        return None;
      }
      if !NameOk(raw.name) || !NumberOk(raw.x86) || !NumberOk(raw.aarch64) || |raw.args| > MAX_ARGS || !argsOk
         || !OrderOk(raw.order, ArgNames(raw.args)) {
        return None;
      }
      SeenGrows(seen, raws[..i], raw);
      FreshRow(seen, raws, i);
      assert raws[..i + 1] == raws[..i] + [raw];
      seen := SeenWith(seen, raw);
      RowIsRead(raw);
      out := out + [RowOf(raw)];
    }
    assert raws[..|raws|] == raws;
    rows := Some(out);
  }

  lemma NothingSeen()
    ensures HasSeen(Seen({}, {}, {}), [])
  {
  }

  lemma RepeatClashes(seen: Seen, raws: seq<RawRow>, i: nat)
    requires i < |raws| && HasSeen(seen, raws[..i]) && Repeats(seen, raws[i])
    ensures !NoClash(raws)
  {
    var k :| 0 <= k < i && Clash(raws[..i][k], raws[i]);
    assert Clash(raws[k], raws[i]);
  }

  lemma FreshRow(seen: Seen, raws: seq<RawRow>, i: nat)
    requires i < |raws| && HasSeen(seen, raws[..i]) && !Repeats(seen, raws[i]) && NoClash(raws[..i])
    ensures NoClash(raws[..i + 1])
  {
    var after := raws[..i + 1];
    forall k, j | 0 <= k < j < |after|
      ensures !Clash(after[k], after[j])
    {
      assert raws[..i][k] == raws[k];
      if j < i {
        assert raws[..i][j] == raws[j];
      }
    }
  }
}
