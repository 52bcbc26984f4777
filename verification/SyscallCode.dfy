/** The code `gen_syscalls.py` emits, as expressions and tables with a meaning. */
module SyscallCode {
  import opened Wrappers
  import opened Text
  import opened Syscalls

  // ---- expressions

  /** A Rust expression: a kernel register, a stub parameter, or a cast. */
  datatype Expr = Reg(i: nat) | Param(i: nat) | As(e: Expr, ty: RustType)

  /** The value of `e` over the values of its registers or parameters. */
  function Eval(e: Expr, values: seq<int>): int {
    match e
    case Reg(i) => if i < |values| then values[i] else 0
    case Param(i) => if i < |values| then values[i] else 0
    case As(inner, ty) => Cast(ty, Eval(inner, values))
  }

  function KernelCast(a: Arg, reg: nat): Expr {
    if KernelRust(a.ty) == U64 then Reg(reg) else As(Reg(reg), KernelRust(a.ty))
  }

  function UserCast(a: Arg, i: nat): Expr {
    if a.ty.Ptr? then As(Param(i), Usize)
    else if KernelRust(a.ty) == Usize then Param(i)
    else if IsSigned(a.ty) then As(As(Param(i), Isize), Usize)
    else As(Param(i), Usize)
  }

  // ---- names

  /** The enum variant of a name: each `_`-separated part with its first letter upper-cased. */
  function Camel(name: string, up: bool): string {
    if name == [] then []
    else if name[0] == '_' then Camel(name[1..], true)
    else [if up then UpperChar(name[0]) else name[0]] + Camel(name[1..], false)
  }

  function Variant(r: Row): string {
    Camel(r.name, true)
  }

  // ---- tables and dispatch

  datatype NrRule = SignExtendEax | Low32

  /** The emitted `SLOTS`: variants by number, assigned row by row. */
  function Assign(slots: seq<Option<string>>, rows: seq<Row>, arch: Arch): (r: seq<Option<string>>)
    requires forall i :: 0 <= i < |rows| && Nr(rows[i], arch).Some? ==> Nr(rows[i], arch).value < |slots|
    ensures |r| == |slots|
    decreases |rows|
  {
    if rows == [] then slots else
      var before := Assign(slots, rows[..|rows| - 1], arch);
      var last := rows[|rows| - 1];
      if Nr(last, arch).None? then before else before[Nr(last, arch).value := Some(Variant(last))]
  }

  /** One more than the largest number, or 0 without a number. */
  function TableSize(rows: seq<Row>, arch: Arch): (n: nat)
    ensures forall i :: 0 <= i < |rows| && Nr(rows[i], arch).Some? ==> Nr(rows[i], arch).value < n
  {
    if rows == [] then 0 else
      var before := TableSize(rows[..|rows| - 1], arch);
      var nr := Nr(rows[|rows| - 1], arch);
      if nr.Some? && nr.value >= before then nr.value + 1 else before
  }

  function Slots(rows: seq<Row>, arch: Arch): seq<Option<string>> {
    Assign(seq(TableSize(rows, arch), _ => None), rows, arch)
  }

  /** `NrTable::lookup`. */
  function Lookup(rule: NrRule, slots: seq<Option<string>>, raw: nat): Option<string> {
    var n := match rule
      case SignExtendEax => Cast(I32, Cast(U32, raw))
      case Low32 => Cast(U32, raw);
    if 0 <= n < |slots| then slots[n] else None
  }

  /** `NrTable::number`: the first slot that holds `sys`. */
  function Number(slots: seq<Option<string>>, sys: string): Option<nat> {
    if slots == [] then None
    else if slots[0] == Some(sys) then Some(0)
    else
      var n := Number(slots[1..], sys);
      if n.None? then None else Some(n.value + 1)
  }

  /** The register that holds argument `arg`: the last one `order` gives it. */
  function RegOf(order: seq<nat>, arg: nat): (j: nat)
    requires arg in order
    ensures j < |order| && order[j] == arg
  {
    if order[|order| - 1] == arg then |order| - 1 else RegOf(order[..|order| - 1], arg)
  }

  /** The register argument `i` of `r` is read from. */
  function ArgReg(r: Row, arch: Arch, i: nat): nat {
    if arch.Aarch64? && i in r.order then RegOf(r.order, i) else i
  }

  /** A `match` arm of `call`: the handler and its arguments. */
  datatype Arm = Arm(variant: string, handler: string, args: seq<Expr>)

  function ArmOf(r: Row, arch: Arch): Arm {
    Arm(Variant(r), r.name,
        seq(|r.args|, i requires 0 <= i < |r.args| => KernelCast(r.args[i], ArgReg(r, arch, i))))
  }

  /** The arms of the numbered rows; every other variant is `NoSys`. */
  function Arms(rows: seq<Row>, arch: Arch): seq<Arm> {
    if rows == [] then []
    else (if Nr(rows[0], arch).Some? then [ArmOf(rows[0], arch)] else []) + Arms(rows[1..], arch)
  }

  datatype Outcome = Called(handler: string, values: seq<int>) | NoSys

  function EvalAll(args: seq<Expr>, regs: seq<int>): (r: seq<int>)
    ensures |r| == |args| && forall i :: 0 <= i < |args| ==> r[i] == Eval(args[i], regs)
  {
    seq(|args|, i requires 0 <= i < |args| => Eval(args[i], regs))
  }

  /** `call`: the first arm of the variant. */
  function Call(arms: seq<Arm>, sys: string, regs: seq<int>): Outcome {
    if arms == [] then NoSys
    else if arms[0].variant == sys then Called(arms[0].handler, EvalAll(arms[0].args, regs))
    else Call(arms[1..], sys, regs)
  }

  function Rule(arch: Arch): NrRule {
    if arch.X86? then SignExtendEax else Low32
  }

  function Dispatch(rows: seq<Row>, arch: Arch, raw: nat, regs: seq<int>): Outcome {
    var sys := Lookup(Rule(arch), Slots(rows, arch), raw);
    if sys.None? then NoSys else Call(Arms(rows, arch), sys.value, regs)
  }

  // ---- casts

  /** A value the argument's C type holds. */
  predicate InCType(ty: CType, v: int) {
    match ty
    case Int => -TWO31 <= v < TWO31
    case PidT => -TWO31 <= v < TWO31
    case Long => -TWO63 <= v < TWO63
    case OffT => -TWO63 <= v < TWO63
    case UInt => 0 <= v < TWO32
    case UmodeT => 0 <= v < TWO16
    case ULong => 0 <= v < TWO64
    case SizeT => 0 <= v < TWO64
    case Ptr => 0 <= v < TWO64
  }

  /** The Rust type of a C type has its values. */
  lemma CTypeExactly(ty: CType, v: int)
    ensures InRust(KernelRust(ty), v) <==> InCType(ty, v)
    ensures IsSigned(ty) <==> InCType(ty, -1)
  {
  }

  /** What a stub puts in a register for `v`: its sign- or zero-extension to 64 bits. */
  function Extended(v: int): int {
    if v < 0 then v + TWO64 else v
  }

  lemma CutBack(ty: CType, v: int)
    requires InCType(ty, v)
    ensures Cast(KernelRust(ty), Extended(v)) == v && 0 <= Extended(v) < TWO64
  {
    if IsSigned(ty) { CutSigned(ty, v); } else { CutUnsigned(ty, v); }
  }

  lemma CutSigned(ty: CType, v: int)
    requires InCType(ty, v) && IsSigned(ty)
    ensures Cast(KernelRust(ty), Extended(v)) == v && 0 <= Extended(v) < TWO64
  {
    SignedBack(v);
    if KernelRust(ty) == I32 { SignedBack32(v); }
  }

  lemma SignedBack(v: int)
    requires -TWO63 <= v < TWO63
    ensures Signed(v, TWO63) == v && v % TWO64 == (if v < 0 then v + TWO64 else v) && Signed(v % TWO64, TWO63) == v
  {
  }

  lemma SignedBack32(v: int)
    requires -TWO31 <= v < TWO31
    ensures Signed(v % TWO64, TWO31) == v
  {
    assert v % TWO64 == if v < 0 then v + TWO64 else v;
  }

  lemma CutUnsigned(ty: CType, v: int)
    requires InCType(ty, v) && !IsSigned(ty)
    ensures Cast(KernelRust(ty), Extended(v)) == v && 0 <= Extended(v) < TWO64
  {
    assert Cast(Usize, v) == v;
  }

  lemma {:induction false} StubValue(a: Arg, v: int, params: seq<int>, i: nat)
    requires i < |params| && params[i] == v && InCType(a.ty, v)
    ensures Eval(UserCast(a, i), params) == Extended(v)
  {
    hide Cast, Extended, InCType;
    CTypeExactly(a.ty, v);
    assert Eval(Param(i), params) == v;
    assert Eval(As(Param(i), Isize), params) == Cast(Isize, v);
    if IsSigned(a.ty) { SignedExtends(a.ty, v); } else { UnsignedExtends(a.ty, v); }
  }

  lemma SignedExtends(ty: CType, v: int)
    requires InCType(ty, v) && IsSigned(ty)
    ensures Cast(Usize, Cast(Isize, v)) == Extended(v)
  {
    SignedBack(v);
  }

  lemma UnsignedExtends(ty: CType, v: int)
    requires InCType(ty, v) && !IsSigned(ty)
    ensures Cast(Usize, v) == v == Extended(v)
  {
    AlreadyUsize(v);
  }

  lemma AlreadyUsize(v: int)
    requires InRust(Usize, v)
    ensures Cast(Usize, v) == v
  {
  }

  /** Handing a value to the kernel and cutting it back to its C type gives the value. */
  lemma {:induction false} CastRoundTrip(a: Arg, v: int, params: seq<int>, regs: seq<int>, i: nat, reg: nat)
    requires i < |params| && params[i] == v && InCType(a.ty, v)
    requires reg < |regs| && regs[reg] == Eval(UserCast(a, i), params)
    ensures Eval(KernelCast(a, reg), regs) == v
  {
    StubValue(a, v, params, i);
    CutBack(a.ty, v);
    hide Cast, Extended;
    assert Eval(Reg(reg), regs) == regs[reg];
    if KernelRust(a.ty) == U64 { CutBack64(a.ty, v); }
  }

  lemma CutBack64(ty: CType, v: int)
    requires InCType(ty, v) && KernelRust(ty) == U64
    ensures Extended(v) == v
  {
  }

  // ---- lookup

  /** The variants of the generated enum differ. */
  ghost predicate VariantsDiffer(rows: seq<Row>) {
    forall i, j :: 0 <= i < j < |rows| ==> Variant(rows[i]) != Variant(rows[j])
  }

  /** Every number of the architecture is given once. */
  ghost predicate NumbersDiffer(rows: seq<Row>, arch: Arch) {
    forall i, j :: 0 <= i < j < |rows| && Nr(rows[i], arch).Some? ==> Nr(rows[i], arch) != Nr(rows[j], arch)
  }

  /** A slot holds a variant exactly when a row has that number and variant. */
  lemma {:induction false} SlotHolds(slots: seq<Option<string>>, rows: seq<Row>, arch: Arch, n: nat, sys: string)
    requires forall i :: 0 <= i < |rows| && Nr(rows[i], arch).Some? ==> Nr(rows[i], arch).value < |slots|
    requires NumbersDiffer(rows, arch) && n < |slots| && slots[n] == None
    ensures Assign(slots, rows, arch)[n] == Some(sys)
       <==> exists i :: 0 <= i < |rows| && Nr(rows[i], arch) == Some(n) && Variant(rows[i]) == sys
    decreases |rows|
  {
    if rows != [] {
      var k := |rows| - 1;
      var init := rows[..k];
      SlotHolds(slots, init, arch, n, sys);
      if Nr(rows[k], arch) == Some(n) {
        assert forall i :: 0 <= i < |rows| && Nr(rows[i], arch) == Some(n) ==> i == k;
      } else {
        assert forall i :: 0 <= i < k ==> init[i] == rows[i];
        assert Assign(slots, rows, arch)[n] == Assign(slots, init, arch)[n];
      }
    }
  }

  /** The row an architecture's number register names: its low 32 bits, signed on x86_64. */
  ghost function Named(arch: Arch, raw: nat): int {
    if arch.X86? then (if raw % TWO32 < TWO31 then raw % TWO32 else raw % TWO32 - TWO32) else raw % TWO32
  }

  /** `lookup` names a row exactly when the register's low 32 bits, signed on x86_64, are its number. */
  lemma LookupExactly(rows: seq<Row>, arch: Arch, raw: nat, sys: string)
    requires NumbersDiffer(rows, arch)
    ensures Lookup(Rule(arch), Slots(rows, arch), raw) == Some(sys)
       <==> exists i :: 0 <= i < |rows| && Nr(rows[i], arch).Some? && Nr(rows[i], arch).value == Named(arch, raw)
              && Variant(rows[i]) == sys
  {
    var size := TableSize(rows, arch);
    var empty := seq(size, _ => None);
    var n := Named(arch, raw);
    if 0 <= n < size {
      SlotHolds(empty, rows, arch, n, sys);
    }
  }

  lemma {:induction false} NumberFinds(slots: seq<Option<string>>, sys: string)
    ensures Number(slots, sys).Some? <==> Some(sys) in slots
    ensures Number(slots, sys).Some? ==> Number(slots, sys).value < |slots| && slots[Number(slots, sys).value] == Some(sys)
  {
    if slots != [] {
      NumberFinds(slots[1..], sys);
      assert slots == [slots[0]] + slots[1..];
    }
  }

  /** `number` gives a row's number, and only a row's. */
  lemma {:induction false} NumberExactly(rows: seq<Row>, arch: Arch, sys: string, n: nat)
    requires NumbersDiffer(rows, arch) && VariantsDiffer(rows)
    ensures Number(Slots(rows, arch), sys) == Some(n)
       <==> exists i :: 0 <= i < |rows| && Nr(rows[i], arch) == Some(n) && Variant(rows[i]) == sys
  {
    var slots := Slots(rows, arch);
    var empty := seq(TableSize(rows, arch), _ => None);
    NumberFinds(slots, sys);
    if Number(slots, sys).Some? {
      SlotHolds(empty, rows, arch, Number(slots, sys).value, sys);
    }
    if n < |slots| {
      SlotHolds(empty, rows, arch, n, sys);
    }
  }

  /** `number` after `lookup` gives the number the register named. */
  lemma {:induction false} LookupThenNumber(rows: seq<Row>, arch: Arch, raw: nat, sys: string)
    requires NumbersDiffer(rows, arch) && VariantsDiffer(rows)
    requires Lookup(Rule(arch), Slots(rows, arch), raw) == Some(sys)
    ensures Named(arch, raw) >= 0 && Number(Slots(rows, arch), sys) == Some(Named(arch, raw))
  {
    hide Lookup, Slots, Number, NumbersDiffer, VariantsDiffer;
    LookupExactly(rows, arch, raw, sys);
    NumberExactly(rows, arch, sys, Named(arch, raw));
  }

  /** The numbers the register rule can name. */
  ghost function NameLimit(arch: Arch): nat {
    if arch.X86? then TWO31 else TWO32
  }

  /** `lookup` after `number` gives the call back exactly when the register rule can name its number. */
  lemma {:induction false} NumberThenLookup(rows: seq<Row>, arch: Arch, sys: string, n: nat)
    requires NumbersDiffer(rows, arch) && VariantsDiffer(rows)
    requires Number(Slots(rows, arch), sys) == Some(n)
    ensures Lookup(Rule(arch), Slots(rows, arch), n) == Some(sys) <==> n < NameLimit(arch)
  {
    hide Lookup, Slots, Number, NumbersDiffer, VariantsDiffer;
    NumberExactly(rows, arch, sys, n);
    LookupExactly(rows, arch, n, sys);
    if Lookup(Rule(arch), Slots(rows, arch), n) == Some(sys) {
      NumberExactly(rows, arch, sys, Named(arch, n));
    }
  }
}
