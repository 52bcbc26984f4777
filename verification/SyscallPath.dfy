/** From a user stub to the kernel handler, for every table `parse` accepts. */
module SyscallPath {
  import opened Wrappers
  import opened Order
  import opened Text
  import opened Syscalls
  import opened SyscallCode

  /** `rows` is what `parse` makes of `raws`. */
  ghost predicate IsTable(raws: seq<RawRow>, rows: seq<Row>) {
    Accepts(raws) && |rows| == |raws| && forall i :: 0 <= i < |raws| ==> ReadsRow(raws[i], rows[i])
  }

  lemma TableNumbers(raws: seq<RawRow>, rows: seq<Row>, arch: Arch)
    requires IsTable(raws, rows)
    ensures NumbersDiffer(rows, arch)
    ensures forall i, j :: 0 <= i < j < |rows| ==> rows[i].name != rows[j].name
    ensures forall i :: 0 <= i < |rows| ==> |rows[i].args| <= 6
  {
    assert forall i :: 0 <= i < |rows| ==> RowOk(raws[i]) && ReadsRow(raws[i], rows[i]);
    forall i, j | 0 <= i < j < |rows|
      ensures rows[i].name != rows[j].name
      ensures Nr(rows[i], arch).Some? ==> Nr(rows[i], arch) != Nr(rows[j], arch)
    {
      assert !Clash(raws[i], raws[j]);
      assert ReadsRow(raws[i], rows[i]) && ReadsRow(raws[j], rows[j]);
    }
  }

  /** The parsed order gives every argument exactly one register. */
  lemma OrderIsPermutation(raw: RawRow, r: Row)
    requires RowOk(raw) && ReadsRow(raw, r)
    ensures forall k: nat :: k < |raw.args| ==> k in r.order
    ensures NoRepeats(r.order)
    ensures forall j :: 0 <= j < |r.order| ==> r.order[j] < |raw.args|
  {
    hide NameOk;
    var names := ArgNames(raw.args);
    if raw.order.None? {
      forall k: nat | k < |raw.args|
        ensures k in r.order
      {
        assert names[r.order[k]] == names[k];
        assert r.order[k] == k;
      }
      forall i, j | 0 <= i < j < |r.order|
        ensures r.order[i] != r.order[j]
      {
        assert names[r.order[i]] == names[i] && names[r.order[j]] == names[j];
      }
    } else {
      GivenOrder(raw.order.value, names, r.order);
    }
  }

  lemma {:induction false} GivenOrder(texts: seq<string>, names: seq<string>, order: seq<nat>)
    requires Sort(NameLess, texts) == Sort(NameLess, names) && Distinct(names) && |order| == |texts|
    requires forall j :: 0 <= j < |order| ==> order[j] < |names| && names[order[j]] == texts[j]
    ensures (forall k: nat :: k < |names| ==> k in order) && NoRepeats(order)
  {
    hide Sort;
    OrderNames(texts, names);
    forall k: nat | k < |names|
      ensures k in order
    {
      assert names[k] in texts;
      var j :| 0 <= j < |texts| && texts[j] == names[k];
      assert names[order[j]] == names[k];
      assert order[j] == k;
    }
    NoTextTwice(texts, names);
    forall i, j | 0 <= i < j < |order|
      ensures order[i] != order[j]
    {
      assert names[order[i]] == texts[i] && names[order[j]] == texts[j];
    }
  }

  lemma {:induction false} NoTextTwice(texts: seq<string>, names: seq<string>)
    requires Sort(NameLess, texts) == Sort(NameLess, names) && Distinct(names)
    ensures NoRepeats(texts)
  {
    hide Sort;
    assert multiset(texts) == multiset(Sort(NameLess, texts)) == multiset(names);
    MultiplicityOne(names);
    forall i, j | 0 <= i < j < |texts|
      ensures texts[i] != texts[j]
    {
      if texts[i] == texts[j] { TwiceCounts(texts, i, j); }
    }
  }

  /** `call` with a row's variant runs that row's arm. */
  lemma {:induction false} CallRow(rows: seq<Row>, arch: Arch, i: nat, regs: seq<int>)
    requires VariantsDiffer(rows) && i < |rows|
    ensures Call(Arms(rows, arch), Variant(rows[i]), regs) ==
      if Nr(rows[i], arch).Some? then Called(rows[i].name, EvalAll(ArmOf(rows[i], arch).args, regs)) else NoSys
    decreases |rows|
  {
    var first := if Nr(rows[0], arch).Some? then [ArmOf(rows[0], arch)] else [];
    var rest := Arms(rows[1..], arch);
    assert Arms(rows, arch) == first + rest;
    if first != [] {
      assert (first + rest)[0] == first[0] && (first + rest)[1..] == rest;
    } else {
      assert first + rest == rest;
    }
    if i > 0 {
      assert Variant(rows[0]) != Variant(rows[i]);
      CallRow(rows[1..], arch, i - 1, regs);
    } else if first == [] {
      NoArm(rows[1..], arch, Variant(rows[0]), regs);
    }
  }

  lemma {:induction false} NoArm(rows: seq<Row>, arch: Arch, sys: string, regs: seq<int>)
    requires forall i :: 0 <= i < |rows| ==> Variant(rows[i]) != sys
    ensures Call(Arms(rows, arch), sys, regs) == NoSys
    decreases |rows|
  {
    if rows != [] {
      NoArm(rows[1..], arch, sys, regs);
      var first := if Nr(rows[0], arch).Some? then [ArmOf(rows[0], arch)] else [];
      var rest := Arms(rows[1..], arch);
      if first != [] {
        assert Variant(rows[0]) != sys;
        assert (first + rest)[0] == first[0] && (first + rest)[1..] == rest;
      } else {
        assert first + rest == rest;
      }
    }
  }

  lemma RowNumber(raws: seq<RawRow>, rows: seq<Row>, arch: Arch, i: nat)
    requires IsTable(raws, rows) && i < |rows|
    ensures SameNumber(Listed(raws[i], arch), Nr(rows[i], arch))
    ensures rows[i].name == raws[i].name && rows[i].args == raws[i].args
  {
    hide Accepts, RegisterName;
    assert ReadsRow(raws[i], rows[i]);
  }

  /** `dispatch` runs exactly the handler of the table's row that the number register names, with as many
      values as the row has arguments, and no handler when it names none. */
  lemma DispatchExactly(raws: seq<RawRow>, rows: seq<Row>, arch: Arch, raw: nat, regs: seq<int>, i: nat)
    requires IsTable(raws, rows) && VariantsDiffer(rows) && i < |raws|
    ensures Listed(raws[i], arch) == Some(Named(arch, raw)) ==>
      Dispatch(rows, arch, raw, regs) == Called(raws[i].name, EvalAll(ArmOf(rows[i], arch).args, regs))
    ensures (forall k :: 0 <= k < |raws| ==> Listed(raws[k], arch) != Some(Named(arch, raw))) ==>
      Dispatch(rows, arch, raw, regs) == NoSys
  {
    hide Lookup, Slots, Call, Arms, EvalAll, ArmOf, Accepts, VariantsDiffer, NumbersDiffer, Named, Dispatch, Listed, Nr;
    assert |rows| == |raws|;
    hide IsTable;
    forall k | 0 <= k < |raws|
      ensures SameNumber(Listed(raws[k], arch), Nr(rows[k], arch)) && rows[k].name == raws[k].name
    {
      RowNumber(raws, rows, arch, k);
    }
    DispatchRow(raws, rows, arch, raw, regs, i);
  }

  lemma DispatchRow(raws: seq<RawRow>, rows: seq<Row>, arch: Arch, raw: nat, regs: seq<int>, i: nat)
    requires IsTable(raws, rows) && VariantsDiffer(rows) && i < |rows|
    ensures Nr(rows[i], arch).Some? && Nr(rows[i], arch).value == Named(arch, raw) ==>
      Dispatch(rows, arch, raw, regs) == Called(rows[i].name, EvalAll(ArmOf(rows[i], arch).args, regs))
    ensures (forall k :: 0 <= k < |rows| ==> Nr(rows[k], arch).None? || Nr(rows[k], arch).value != Named(arch, raw)) ==>
      Dispatch(rows, arch, raw, regs) == NoSys
  {
    TableNumbers(raws, rows, arch);
    hide Lookup, Slots, Call, Arms, EvalAll, ArmOf, Accepts, VariantsDiffer, NumbersDiffer, Named;
    var sys := Lookup(Rule(arch), Slots(rows, arch), raw);
    LookupExactly(rows, arch, raw, Variant(rows[i]));
    CallRow(rows, arch, i, regs);
    if sys.Some? {
      LookupExactly(rows, arch, raw, sys.value);
    }
  }

  /** The registers hold a row's arguments as the architecture orders them. */
  ghost predicate Loaded(r: Row, arch: Arch, params: seq<int>, regs: seq<int>) {
    && |params| == |r.args|
    && (forall i :: 0 <= i < |params| ==> InCType(r.args[i].ty, params[i]))
    && (forall i :: 0 <= i < |params| ==>
          ArgReg(r, arch, i) < |regs| && regs[ArgReg(r, arch, i)] == Extended(params[i]))
  }

  lemma ArmValues(r: Row, arch: Arch, params: seq<int>, regs: seq<int>)
    requires Loaded(r, arch, params, regs)
    ensures EvalAll(ArmOf(r, arch).args, regs) == params
  {
    var args := ArmOf(r, arch).args;
    forall i | 0 <= i < |params|
      ensures Eval(args[i], regs) == params[i]
    {
      StubValue(r.args[i], params[i], params, i);
      CastRoundTrip(r.args[i], params[i], params, regs, i, ArgReg(r, arch, i));
    }
  }

  /** A row's own number names it exactly when the register rule can. */
  lemma OwnNumber(arch: Arch, n: nat)
    ensures Named(arch, n) == n <==> n < NameLimit(arch)
  {
  }

  lemma ReachesHandler(raws: seq<RawRow>, rows: seq<Row>, arch: Arch, i: nat, n: nat, params: seq<int>, regs: seq<int>)
    requires IsTable(raws, rows) && VariantsDiffer(rows) && i < |raws| && Listed(raws[i], arch) == Some(n)
    requires Loaded(rows[i], arch, params, regs)
    ensures n < NameLimit(arch) ==> Dispatch(rows, arch, n, regs) == Called(raws[i].name, params)
    ensures n >= NameLimit(arch) ==> forall values :: Dispatch(rows, arch, n, regs) != Called(raws[i].name, values)
  {
    hide Dispatch, EvalAll, ArmOf, VariantsDiffer, Named, NumbersDiffer, Loaded, Accepts, ReadsRow, Listed;
    ArmValues(rows[i], arch, params, regs);
    OwnNumber(arch, n);
    DispatchExactly(raws, rows, arch, n, regs, i);
    if n >= NameLimit(arch) {
      if k :| 0 <= k < |raws| && Listed(raws[k], arch) == Some(Named(arch, n)) {
        DispatchExactly(raws, rows, arch, n, regs, k);
        NamesDiffer(raws, i, k);
      }
    }
  }

  lemma NamesDiffer(raws: seq<RawRow>, i: nat, k: nat)
    requires Accepts(raws) && i < |raws| && k < |raws| && i != k
    ensures raws[i].name != raws[k].name
  {
    assert !Clash(raws[if i < k then i else k], raws[if i < k then k else i]);
  }

  /** What an x86_64 stub called with `params` leaves in the registers: each cast argument in turn. */
  ghost predicate StubRegs(args: seq<Arg>, params: seq<int>, regs: seq<int>) {
    && |params| == |args| <= |regs|
    && (forall i :: 0 <= i < |params| ==> InCType(args[i].ty, params[i]))
    && (forall i :: 0 <= i < |params| ==> regs[i] == Eval(UserCast(args[i], i), params))
  }

  /** Calling the stub of a row of the table with any arguments of its C types runs that row's handler with
      the same values exactly when the row's x86_64 number is below 2^31, whatever the unused registers
      hold; a larger number, which `parse` accepts, never reaches its handler. */
  lemma StubReachesHandler(raws: seq<RawRow>, rows: seq<Row>, i: nat, n: nat, params: seq<int>, regs: seq<int>)
    requires IsTable(raws, rows) && VariantsDiffer(rows) && i < |raws| && raws[i].x86 == Some(n)
    requires StubRegs(raws[i].args, params, regs)
    ensures Dispatch(rows, X86, n, regs) == Called(raws[i].name, params) <==> n < TWO31
  {
    StubLoads(raws, rows, i, params, regs);
    hide Dispatch, IsTable, VariantsDiffer, Loaded, StubRegs;
    ReachesHandler(raws, rows, X86, i, n, params, regs);
  }

  lemma StubLoads(raws: seq<RawRow>, rows: seq<Row>, i: nat, params: seq<int>, regs: seq<int>)
    requires IsTable(raws, rows) && i < |raws| && StubRegs(raws[i].args, params, regs)
    ensures Loaded(rows[i], X86, params, regs)
  {
    RowNumber(raws, rows, X86, i);
    hide IsTable, Extended, InCType, UserCast;
    forall k | 0 <= k < |params|
      ensures ArgReg(rows[i], X86, k) < |regs| && regs[ArgReg(rows[i], X86, k)] == Extended(params[k])
    {
      StubValue(rows[i].args[k], params[k], params, k);
    }
  }

  /** aarch64: the register that the table's order gives an argument holds it. */
  ghost predicate OrderedRegs(raw: RawRow, params: seq<int>, regs: seq<int>) {
    && |params| == |raw.args| <= |regs| && (raw.order.Some? ==> |raw.order.value| == |raw.args|)
    && (forall k :: 0 <= k < |params| ==> InCType(raw.args[k].ty, params[k]))
    && (forall j, k :: 0 <= j < |params| && 0 <= k < |params| && raw.args[k].name == RegisterName(raw, j) ==>
          regs[j] == Extended(params[k]))
  }

  /** On aarch64 the handler gets the arguments in canonical order, however the table permutes them. */
  lemma OrderReachesHandler(raws: seq<RawRow>, rows: seq<Row>, i: nat, n: nat, params: seq<int>, regs: seq<int>)
    requires IsTable(raws, rows) && VariantsDiffer(rows) && i < |raws| && raws[i].aarch64 == Some(n)
    requires OrderedRegs(raws[i], params, regs)
    ensures Dispatch(rows, Aarch64, n, regs) == Called(raws[i].name, params) <==> n < TWO32
  {
    OrderLoads(raws[i], rows[i], params, regs);
    hide Dispatch, IsTable, VariantsDiffer, Loaded, OrderedRegs;
    ReachesHandler(raws, rows, Aarch64, i, n, params, regs);
  }

  lemma OrderLoads(raw: RawRow, r: Row, params: seq<int>, regs: seq<int>)
    requires RowOk(raw) && ReadsRow(raw, r) && OrderedRegs(raw, params, regs)
    ensures Loaded(r, Aarch64, params, regs)
  {
    OrderIsPermutation(raw, r);
    hide RowOk, Extended, InCType, RegisterName;
    forall k | 0 <= k < |params|
      ensures ArgReg(r, Aarch64, k) < |regs| && regs[ArgReg(r, Aarch64, k)] == Extended(params[k])
    {
      assert k in r.order;
      var j := RegOf(r.order, k);
      assert r.order[j] == k;
    }
  }

  // ---- when two names give one variant

  predicate IsLower(c: char) { 'a' <= c <= 'z' }

  predicate IsUpper(c: char) { 'A' <= c <= 'Z' }

  /** The name without the underscores its variant does not show: an underscore stays only after something
      else and before a letter. */
  function Canon(name: string, started: bool): string {
    if name == [] then []
    else if name[0] == '_' then
      (if started && |name| > 1 && IsLower(name[1]) then ['_'] else []) + Canon(name[1..], started)
    else [name[0]] + Canon(name[1..], true)
  }

  function CanonName(name: string): string { Canon(name, false) }

  ghost predicate NoUpper(name: string) {
    forall i :: 0 <= i < |name| ==> !IsUpper(name[i])
  }

  /** Every underscore is followed by a letter. */
  ghost predicate Parted(name: string) {
    NoUpper(name) && forall i :: 0 <= i < |name| && name[i] == '_' ==> i + 1 < |name| && IsLower(name[i + 1])
  }

  lemma PartedTail(name: string)
    requires Parted(name) && name != []
    ensures Parted(name[1..])
  {
    var tail := name[1..];
    forall i | 0 <= i < |tail|
      ensures !IsUpper(tail[i]) && (tail[i] == '_' ==> i + 1 < |tail| && IsLower(tail[i + 1]))
    {
      assert tail[i] == name[i + 1];
    }
  }

  lemma PartedCons(c: char, name: string)
    requires Parted(name) && !IsUpper(c) && (c == '_' ==> name != [] && IsLower(name[0]))
    ensures Parted([c] + name)
  {
    var all := [c] + name;
    assert forall i :: 0 < i < |all| ==> all[i] == name[i - 1];
  }

  /** The canonical name has its underscores only before letters, and does not start with one. */
  lemma {:induction false} CanonParted(name: string, started: bool)
    requires NoUpper(name)
    ensures Parted(Canon(name, started))
    ensures name != [] && name[0] != '_' ==> Canon(name, started) != [] && Canon(name, started)[0] == name[0]
    ensures !started && Canon(name, started) != [] ==> Canon(name, started)[0] != '_'
    decreases |name|
  {
    if name != [] {
      assert NoUpper(name[1..]) by { assert forall i :: 0 <= i < |name| - 1 ==> name[1..][i] == name[i + 1]; }
      CanonParted(name[1..], started || name[0] != '_');
      if name[0] == '_' {
        if started && |name| > 1 && IsLower(name[1]) {
          assert name[1..][0] == name[1];
          PartedCons('_', Canon(name[1..], started));
        } else {
          assert Canon(name, started) == Canon(name[1..], started);
        }
      } else {
        PartedCons(name[0], Canon(name[1..], true));
      }
    }
  }

  /** What `Camel` makes of the canonical name, at the start, inside a part and after an underscore. */
  ghost predicate SameCamel(name: string) {
    && Camel(Canon(name, false), true) == Camel(name, true)
    && Camel(Canon(name, true), false) == Camel(name, false)
    && Camel(Canon(name, true), name != [] && IsLower(name[0])) == Camel(name, true)
  }

  lemma {:induction false} CamelCons(c: char, name: string, up: bool)
    ensures Camel([c] + name, up) ==
      if c == '_' then Camel(name, true) else [if up then UpperChar(c) else c] + Camel(name, false)
  {
    assert ([c] + name)[1..] == name;
  }

  lemma {:induction false} CanonCamel(name: string)
    ensures SameCamel(name)
    decreases |name|
  {
    if name != [] {
      var tail := name[1..];
      CanonCamel(tail);
      if name[0] == '_' {
        assert Canon(name, false) == Canon(tail, false);
        if |name| > 1 && IsLower(name[1]) {
          assert tail[0] == name[1];
          CamelCons('_', Canon(tail, true), false);
        } else {
          assert tail != [] ==> tail[0] == name[1];
          assert Canon(name, true) == Canon(tail, true);
        }
      } else {
        CamelCons(name[0], Canon(tail, true), true);
        CamelCons(name[0], Canon(tail, true), false);
      }
    }
  }

  /** The name a variant comes from: an upper-case letter opens a part. */
  ghost function Snake(variant: string, first: bool): string {
    if variant == [] then []
    else if IsUpper(variant[0]) then
      (if first then [] else ['_']) + [LowerChar(variant[0])] + Snake(variant[1..], false)
    else [variant[0]] + Snake(variant[1..], false)
  }

  ghost function LowerChar(c: char): char {
    if IsUpper(c) then (c as int - 'A' as int + 'a' as int) as char else c
  }

  lemma {:induction false} SnakeCons(c: char, rest: string, first: bool)
    ensures Snake([c] + rest, first) ==
      if IsUpper(c) then (if first then [] else ['_']) + [LowerChar(c)] + Snake(rest, false) else [c] + Snake(rest, false)
  {
    assert ([c] + rest)[1..] == rest;
  }

  /** After a part's first letter the rest of a name can be read back. */
  lemma {:induction false} SnakeOfRest(name: string)
    requires Parted(name)
    ensures Snake(Camel(name, false), false) == name
    decreases |name|
  {
    if name == [] {
    } else {
      var c, tail := name[0], name[1..];
      assert !IsUpper(c) && (c == '_' ==> |name| > 1 && IsLower(name[1]));
      hide Snake, Camel, Parted, UpperChar, LowerChar, IsUpper;
      PartedTail(name);
      assert name == [c] + tail;
      CamelCons(c, tail, false);
      if c == '_' {
        var d, rest := tail[0], tail[1..];
        PartedTail(tail);
        assert tail == [d] + rest;
        CamelCons(d, rest, true);
        SnakeOfRest(rest);
        LetterUp(d);
        SnakeCons(UpperChar(d), Camel(rest, false), false);
        assert ['_'] + [d] + rest == name;
      } else {
        SnakeOfRest(tail);
        SnakeCons(c, Camel(tail, false), false);
      }
    }
  }

  lemma LetterUp(c: char)
    requires IsLower(c)
    ensures IsUpper(UpperChar(c)) && LowerChar(UpperChar(c)) == c && c != '_'
  {
  }

  /** The variant of a canonical name gives the name back. */
  lemma {:induction false} SnakeOfCamel(name: string)
    requires Parted(name) && (name != [] ==> name[0] != '_')
    ensures Snake(Camel(name, true), true) == name
  {
    if name == [] {
    } else {
      var c, tail := name[0], name[1..];
      assert !IsUpper(c);
      hide Snake, Parted, Camel, IsUpper, UpperChar, LowerChar;
      UpperThenLower(c);
      PartedTail(name);
      SnakeOfRest(tail);
      assert name == [c] + tail;
      CamelCons(c, tail, true);
      SnakeCons(UpperChar(c), Camel(tail, false), true);
    }
  }

  lemma UpperThenLower(c: char)
    requires !IsUpper(c)
    ensures if IsUpper(UpperChar(c)) then LowerChar(UpperChar(c)) == c else UpperChar(c) == c
  {
  }

  lemma NameNoUpper(name: string)
    requires NameOk(name)
    ensures NoUpper(name)
  {
    hide IsRustKeyword;
    forall i | 0 <= i < |name|
      ensures !IsUpper(name[i])
    {
      assert i < |Unterminated(name)| || name[i] == '\n';
    }
  }

  /** Two names give one variant exactly when they have one canonical form. */
  lemma {:induction false} SameVariantExactly(a: string, b: string)
    requires NoUpper(a) && NoUpper(b)
    ensures Camel(a, true) == Camel(b, true) <==> CanonName(a) == CanonName(b)
  {
    hide Camel, Snake, Canon;
    CanonCamel(a);
    CanonCamel(b);
    CanonParted(a, false);
    CanonParted(b, false);
    SnakeOfCamel(CanonName(a));
    SnakeOfCamel(CanonName(b));
  }

  /** The generated enum's variants differ exactly when the table's canonical names do. */
  lemma VariantsDifferExactly(raws: seq<RawRow>, rows: seq<Row>)
    requires IsTable(raws, rows)
    ensures VariantsDiffer(rows) <==> forall i, j :: 0 <= i < j < |raws| ==> CanonName(raws[i].name) != CanonName(raws[j].name)
  {
    hide Camel, Canon, NameOk;
    forall i, j | 0 <= i < j < |rows|
      ensures Variant(rows[i]) != Variant(rows[j]) <==> CanonName(raws[i].name) != CanonName(raws[j].name)
    {
      assert RowOk(raws[i]) && RowOk(raws[j]);
      assert ReadsRow(raws[i], rows[i]) && ReadsRow(raws[j], rows[j]);
      NameNoUpper(rows[i].name);
      NameNoUpper(rows[j].name);
      SameVariantExactly(rows[i].name, rows[j].name);
    }
  }

  /** A variant can start an identifier exactly when the canonical name starts with a letter. */
  lemma {:induction false} VariantStarts(name: string)
    requires NoUpper(name)
    ensures var v := Camel(name, true);
      (v != [] && IsUpper(v[0])) <==> (CanonName(name) != [] && IsLower(CanonName(name)[0]))
  {
    hide Snake;
    CanonCamel(name);
    CanonParted(name, false);
  }

  predicate IsWordChar(c: char) { IsLower(c) || IsUpper(c) || '0' <= c <= '9' || c == '_' }

  /** An ASCII identifier Rust can name a variant with. */
  predicate IsRustName(v: string) {
    && v != [] && !('0' <= v[0] <= '9') && (forall i :: 0 <= i < |v| ==> IsWordChar(v[i]))
    && v != "_" && !IsRustKeyword(v)
  }

  /** Without a newline at its end, a name is accepted exactly when it is a Rust identifier or `_`, no keyword,
      and has no capital letter; with one, keywords are accepted too. */
  lemma NameExactly(name: string)
    requires '\n' !in name
    ensures NameOk(name) <==> NoUpper(name) && (IsRustName(name) || name == "_")
    ensures NameOk(name + "\n") <==> name != [] && !('0' <= name[0] <= '9') && forall i :: 0 <= i < |name| ==> IsNameChar(name[i])
  {
    hide IsRustKeyword;
    NotKeyword(name);
    var ended := name + "\n";
    assert Unterminated(ended) == name;
    assert name != [] ==> Unterminated(name) == name;
    assert forall i :: 0 <= i < |name| ==> ended[i] == name[i];
  }

  lemma KeywordEnd(s: string)
    requires IsRustKeyword(s)
    ensures s != [] && s[|s| - 1] != '\n'
  {
  }

  lemma NotKeyword(name: string)
    ensures !IsRustKeyword(name + "\n") && !IsRustKeyword("_")
  {
    assert !IsRustKeyword("_");
    hide IsRustKeyword;
    var ended := name + "\n";
    assert ended[|name|] == '\n';
    if IsRustKeyword(ended) { KeywordEnd(ended); }
  }

  /** The characters of a variant are those of its name but for the underscores. */
  lemma {:induction false} CamelChars(name: string, up: bool)
    requires forall i :: 0 <= i < |name| ==> IsNameChar(name[i]) || name[i] == '\n'
    ensures forall c :: c in Camel(name, up) ==> c != '_' && (IsWordChar(c) || c == '\n')
    ensures '\n' in Camel(name, up) <==> '\n' in name
    decreases |name|
  {
    if name != [] {
      var tail := name[1..];
      assert name == [name[0]] + tail;
      assert forall i :: 0 <= i < |tail| ==> tail[i] == name[i + 1];
      CamelChars(tail, name[0] == '_');
      CamelCons(name[0], tail, up);
    }
  }

  lemma SelfOnly(v: string)
    requires v != [] && IsUpper(v[0])
    ensures IsRustKeyword(v) <==> v == "Self"
  {
  }

  lemma SelfVariant()
    ensures Camel("self", true) == "Self" && CanonName("self") == "self"
  {
    hide Camel;
    assert "self" == ['s'] + "elf" && "elf" == ['e'] + "lf" && "lf" == ['l'] + "f" && "f" == ['f'] + "";
    CamelNothing();
    CamelCons('s', "elf", true);
    CamelCons('e', "lf", false);
    CamelCons('l', "f", false);
    CamelCons('f', "", false);
    assert Camel("f", false) == "f";
    assert Camel("lf", false) == "lf";
    assert Camel("elf", false) == "elf";
    assert "self"[1..] == "elf" && "elf"[1..] == "lf" && "lf"[1..] == "f" && "f"[1..] == "";
    assert Canon("f", true) == "f";
    assert Canon("lf", true) == "lf";
    assert Canon("elf", true) == "elf";
  }

  lemma CamelNothing()
    ensures Camel("", true) == "" && Camel("", false) == ""
  {
  }

  lemma NameNewline(name: string)
    requires NameOk(name)
    ensures forall i :: 0 <= i < |name| ==> IsNameChar(name[i]) || name[i] == '\n'
    ensures '\n' in name <==> name[|name| - 1] == '\n'
  {
    hide IsRustKeyword;
    var body := Unterminated(name);
    assert forall i :: 0 <= i < |name| ==> i < |body| || (i == |name| - 1 && name[i] == '\n');
  }

  /** The variant of an accepted name is a Rust identifier and no keyword exactly when the canonical name
      starts with a letter and is not `self`, and no newline ends the name. */
  lemma {:induction false} VariantIsName(name: string)
    requires NameOk(name)
    ensures IsRustName(Camel(name, true)) <==>
      CanonName(name) != [] && IsLower(CanonName(name)[0]) && CanonName(name) != "self" && name[|name| - 1] != '\n'
  {
    NameNoUpper(name);
    NameNewline(name);
    hide NameOk, Camel, Canon, IsNameChar, IsRustName, IsWordChar, NoUpper, IsUpper, IsLower;
    var v := Camel(name, true);
    CamelChars(name, true);
    VariantStarts(name);
    SelfVariant();
    SelfLower();
    SameVariantExactly(name, "self");
    FirstOfVariant(name);
    if v != [] && IsUpper(v[0]) {
      CapitalName(v);
    } else {
      NoCapitalName(v);
    }
  }

  lemma SelfLower()
    ensures NoUpper("self")
  {
  }

  lemma CapitalName(v: string)
    requires v != [] && IsUpper(v[0]) && forall c :: c in v ==> IsWordChar(c) || c == '\n'
    ensures IsRustName(v) <==> '\n' !in v && v != "Self"
  {
    SelfOnly(v);
    hide IsRustKeyword;
    assert forall i :: 0 <= i < |v| ==> v[i] in v;
    if '\n' in v {
      var i :| 0 <= i < |v| && v[i] == '\n';
      assert !IsWordChar(v[i]);
    }
  }

  lemma NoCapitalName(v: string)
    requires v != [] ==> !IsUpper(v[0]) && !IsLower(v[0]) && v[0] != '_'
    ensures !IsRustName(v)
  {
    hide IsRustKeyword;
    if v != [] { assert IsWordChar(v[0]) ==> '0' <= v[0] <= '9'; }
  }

  /** A variant does not start with a lower-case letter. */
  lemma {:induction false} FirstOfVariant(name: string)
    ensures Camel(name, true) != [] ==> !IsLower(Camel(name, true)[0]) && Camel(name, true)[0] != '_'
    decreases |name|
  {
    if name != [] && name[0] == '_' { FirstOfVariant(name[1..]); }
  }

  /** Accepted names of each kind whose variants are no identifiers: an empty one, a digit first, a keyword,
      and one with a newline. */
  lemma VariantsNotNames()
    ensures NameOk("_") && NameOk("_1") && NameOk("_self") && NameOk("a\n")
    ensures !IsRustName(Camel("_", true)) && !IsRustName(Camel("_1", true))
    ensures !IsRustName(Camel("_self", true)) && !IsRustName(Camel("a\n", true))
  {
    OddNames();
    SelfVariant();
    hide NameOk, Camel, IsRustName;
    VariantIsName("_");
    VariantIsName("_1");
    VariantIsName("_self");
    VariantIsName("a\n");
    CanonUnderscore("");
    CanonUnderscore("1");
    CanonUnderscore("self");
    assert "_" == ['_'] + "" && "_1" == ['_'] + "1" && "_self" == ['_'] + "self";
  }

  lemma CanonUnderscore(name: string)
    ensures CanonName(['_'] + name) == CanonName(name)
    ensures name != [] && name[0] != '_' ==> CanonName(name) != [] && CanonName(name)[0] == name[0]
  {
    assert (['_'] + name)[1..] == name;
  }

  lemma OddNames()
    ensures NameOk("_") && NameOk("_1") && NameOk("_self") && NameOk("a\n")
  {
    hide NameOk;
    UnderscoreName("_");
    UnderscoreName("_1");
    UnderscoreName("_self");
    NewlineName();
  }

  lemma UnderscoreName(name: string)
    requires name != [] && name[0] == '_' && forall i :: 0 <= i < |name| ==> IsNameChar(name[i])
    ensures NameOk(name)
  {
  }

  lemma NewlineName()
    ensures NameOk("a\n")
  {
    assert "a\n"[1] == '\n';
    assert Unterminated("a\n") == "a";
  }

  lemma PlainNames()
    ensures NameOk("a_b") && NameOk("a__b")
  {
    assert "a_b"[1] == '_' && "a__b"[1] == '_';
  }

  lemma SameVariant()
    ensures Camel("a_b", true) == "AB" && Camel("a__b", true) == "AB"
  {
    assert "a_b"[1..] == "_b" && "a__b"[1..] == "__b" && "__b"[1..] == "_b" && "_b"[1..] == "b" && "b"[1..] == "";
    assert Camel("", false) == "";
    assert Camel("b", true) == "B";
    assert Camel("_b", true) == "B" && Camel("_b", false) == "B";
    assert Camel("__b", false) == "B";
  }

  /** `parse` accepts names whose variants coincide. */
  lemma VariantsCanCoincide()
    ensures var raws := [RawRow("a_b", Some(0), None, [], None), RawRow("a__b", Some(1), None, [], None)];
      Accepts(raws) && Camel(raws[0].name, true) == Camel(raws[1].name, true)
  {
    PlainNames();
    SameVariant();
    hide NameOk, Camel;
    assert ArgNames([]) == [];
  }
}
