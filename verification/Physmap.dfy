/** Filling gaps in the physmap before an ACPI table is read through it. */
module Physmap {
  import opened Wrappers

  const WORD: int := 0x1_0000_0000_0000_0000
  const PAGE: int := 4096
  const HHDM_BASE: int := 0xFFFF_8000_0000_0000

  type Byte = bv8

  datatype Leaf = Leaf(frame: int, flags: int)

  /** How a call that may overflow ends: both build profiles turn an overflowing `+` into a panic. */
  datatype Outcome = Panic | Done(ok: bool)

  predicate IsWord(x: int) { 0 <= x < WORD }

  predicate Aligned(x: int) { x % PAGE == 0 }

  function AlignDown(x: int): int {
    x - x % PAGE
  }

  /** None where the addition overflows. */
  function AlignUp(x: int): Option<int> {
    if x + PAGE - 1 >= WORD then None else Some(AlignDown(x + PAGE - 1))
  }

  function SaturatingAdd(x: int, y: int): int {
    if x + y >= WORD then WORD - 1 else x + y
  }

  /** Where the physmap shows physical address `p`, in wrapping 64-bit arithmetic. */
  function Va(p: int): int {
    (HHDM_BASE + p) % WORD
  }

  /** The upper and lower halves a 48-bit page table can map. */
  predicate Canonical(va: int) {
    va < 0x8000_0000_0000 || va >= 0xFFFF_8000_0000_0000
  }

  lemma VaInjective(p: int, q: int)
    requires IsWord(p) && IsWord(q) && Va(p) == Va(q)
    ensures p == q
  {
  }

  lemma VaOffset(p: int)
    requires IsWord(p)
    ensures AlignDown(Va(p)) == Va(AlignDown(p)) && Va(p) % PAGE == p % PAGE
    ensures IsWord(AlignDown(p)) && Aligned(AlignDown(p))
  {
  }

  /** Page `p` holds a byte of `[phys, phys + len)`. */
  predicate Touches(phys: int, len: int, p: int) {
    Aligned(p) && p < phys + len && phys < p + PAGE && len > 0
  }

  /** Every page of physical memory below `top` that the physmap shows is shown at its own address. */
  ghost predicate OwnFrames(table: map<int, Leaf>, top: int) {
    forall p :: 0 <= p < top && Aligned(p) && Va(p) in table ==> table[Va(p)].frame == p
  }

  /** Nothing mapped before has changed. */
  ghost predicate Kept(before: map<int, Leaf>, after: map<int, Leaf>) {
    forall va :: va in before ==> va in after && after[va] == before[va]
  }

  /** Every new leaf shows a page of the range, by its own frame and with these flags. */
  ghost predicate Filled(before: map<int, Leaf>, after: map<int, Leaf>, phys: int, len: int, flags: int) {
    forall va :: va in after && va !in before ==>
      exists p :: Touches(phys, len, p) && IsWord(p) && va == Va(p) && after[va] == Leaf(p, flags)
  }

  /** Filling gaps keeps every page shown at its own address, whatever the range. */
  lemma FilledOwn(before: map<int, Leaf>, after: map<int, Leaf>, phys: int, len: int, flags: int, top: int)
    requires OwnFrames(before, top) && Kept(before, after) && Filled(before, after, phys, len, flags) && top <= WORD
    ensures OwnFrames(after, top)
  {
    forall p | 0 <= p < top && Aligned(p) && Va(p) in after
      ensures after[Va(p)].frame == p
    {
      if Va(p) !in before {
        var q :| Touches(phys, len, q) && IsWord(q) && Va(p) == Va(q) && after[Va(p)] == Leaf(q, flags);
        VaInjective(p, q);
      }
    }
  }

  lemma FilledMore(before: map<int, Leaf>, mid: map<int, Leaf>, phys: int, len: int, flags: int, p: int)
    requires Kept(before, mid) && Filled(before, mid, phys, len, flags)
    requires Touches(phys, len, p) && IsWord(p) && Va(p) !in mid
    ensures Kept(before, mid[Va(p) := Leaf(p, flags)]) && Filled(before, mid[Va(p) := Leaf(p, flags)], phys, len, flags)
  {
    var after := mid[Va(p) := Leaf(p, flags)];
    forall va | va in after && va !in before
      ensures exists q :: Touches(phys, len, q) && IsWord(q) && va == Va(q) && after[va] == Leaf(q, flags)
    {
      if va == Va(p) {
      } else {
        var q :| Touches(phys, len, q) && IsWord(q) && va == Va(q) && mid[va] == Leaf(q, flags);
        assert after[va] == Leaf(q, flags);
      }
    }
  }

  /** Every page that touches the range is shown. */
  ghost predicate Covered(table: map<int, Leaf>, phys: int, len: int) {
    forall p :: Touches(phys, len, p) ==> Va(p) in table
  }

  ghost predicate CoveredBelow(table: map<int, Leaf>, phys: int, len: int, p: int) {
    forall q :: Touches(phys, len, q) && q < p ==> Va(q) in table
  }

  /** Where the loop starts and ends: the pages between are exactly those that touch the range. */
  lemma Rounded(phys: int, len: int)
    requires IsWord(phys) && 0 < len < WORD
    ensures AlignUp(SaturatingAdd(phys, len)).None? <==> phys + len > WORD - PAGE
    ensures var start, up := AlignDown(phys), AlignUp(SaturatingAdd(phys, len));
            up.Some? ==>
              && Aligned(start) && Aligned(up.value) && 0 <= start <= up.value <= WORD - PAGE
              && forall p :: Touches(phys, len, p) <==> Aligned(p) && start <= p < up.value
  {
  }

  lemma SameTable(table: map<int, Leaf>, phys: int, len: int, flags: int)
    ensures Kept(table, table) && Filled(table, table, phys, len, flags)
  {
  }

  lemma NothingTouches(table: map<int, Leaf>, phys: int)
    ensures Covered(table, phys, 0)
  {
  }

  lemma NoGaps(table: map<int, Leaf>, phys: int)
    ensures GapsCanonical(table, phys, 0)
  {
  }

  lemma KeptOut(before: map<int, Leaf>, after: map<int, Leaf>, va: int)
    requires Kept(before, after) && va !in after
    ensures va !in before
  {
  }

  lemma CoveredStart(table: map<int, Leaf>, phys: int, len: int)
    requires forall p :: Touches(phys, len, p) ==> AlignDown(phys) <= p
    ensures CoveredBelow(table, phys, len, AlignDown(phys))
  {
    hide Touches, AlignDown, Va;
  }

  lemma CoveredMore(table: map<int, Leaf>, phys: int, len: int, p: int, leaf: Leaf)
    requires CoveredBelow(table, phys, len, p)
    ensures CoveredBelow(table[Va(p) := leaf], phys, len, p)
  {
  }

  lemma CoveredNext(table: map<int, Leaf>, phys: int, len: int, p: int)
    requires CoveredBelow(table, phys, len, p) && Aligned(p) && Va(p) in table
    ensures CoveredBelow(table, phys, len, p + PAGE)
  {
    hide Va;
    forall q | Touches(phys, len, q) && q < p + PAGE
      ensures Va(q) in table
    {
      assert q <= p;
    }
  }

  lemma CoveredEnd(table: map<int, Leaf>, phys: int, len: int, end: int)
    requires CoveredBelow(table, phys, len, end) && forall p :: Touches(phys, len, p) ==> p < end
    ensures Covered(table, phys, len)
  {
  }

  /** Every page of the range that is not shown yet has a canonical address. */
  ghost predicate GapsCanonical(table: map<int, Leaf>, phys: int, len: int) {
    forall p :: Touches(phys, len, p) && Va(p) !in table ==> Canonical(Va(p))
  }

  ghost predicate GapsCanonicalBelow(table: map<int, Leaf>, phys: int, len: int, p: int) {
    forall q :: Touches(phys, len, q) && q < p && Va(q) !in table ==> Canonical(Va(q))
  }

  /** Every new leaf has a canonical address. */
  ghost predicate NewCanonical(before: map<int, Leaf>, after: map<int, Leaf>) {
    forall va :: va in after && va !in before ==> Canonical(va)
  }

  /** The physmap has a canonical address for the first 2^48 bytes of physical memory and for no other. */
  lemma CanonicalExactly(table: map<int, Leaf>, phys: int, len: int)
    requires IsWord(phys) && 0 < len && phys + len <= WORD - PAGE
    ensures GapsCanonical(table, phys, len) <==>
      forall p :: Touches(phys, len, p) && p >= 0x1_0000_0000_0000 ==> Va(p) in table
  {
    forall p | Touches(phys, len, p)
      ensures Canonical(Va(p)) <==> p < 0x1_0000_0000_0000
    {
    }
  }

  lemma CanonicalStart(table: map<int, Leaf>, phys: int, len: int)
    requires forall p :: Touches(phys, len, p) ==> AlignDown(phys) <= p
    ensures GapsCanonicalBelow(table, phys, len, AlignDown(phys))
  {
    hide Touches, AlignDown, Va, Canonical;
  }

  lemma CanonicalNext(table: map<int, Leaf>, phys: int, len: int, p: int)
    requires GapsCanonicalBelow(table, phys, len, p) && Aligned(p) && (Va(p) in table || Canonical(Va(p)))
    ensures GapsCanonicalBelow(table, phys, len, p + PAGE)
  {
    hide Va, Canonical;
    forall q | Touches(phys, len, q) && q < p + PAGE && Va(q) !in table
      ensures Canonical(Va(q))
    {
      assert q <= p;
    }
  }

  lemma CanonicalEnd(table: map<int, Leaf>, phys: int, len: int, end: int)
    requires GapsCanonicalBelow(table, phys, len, end) && forall p :: Touches(phys, len, p) ==> p < end
    ensures GapsCanonical(table, phys, len)
  {
  }

  lemma NotCanonical(table: map<int, Leaf>, phys: int, len: int, p: int)
    requires Touches(phys, len, p) && Va(p) !in table && !Canonical(Va(p))
    ensures !GapsCanonical(table, phys, len)
  {
  }

  /** The live page table and the physical memory behind it. `refuse` says which calls fail for want of a
      page-table frame, whatever the reason. */
  class Machine {
    var table: map<int, Leaf>
    var calls: nat
    const memory: int -> Byte
    const refuse: nat -> bool

    constructor (memory: int -> Byte, refuse: nat -> bool)
      ensures table == map[] && calls == 0 && this.memory == memory && this.refuse == refuse
    {
      table, calls := map[], 0;
      this.memory, this.refuse := memory, refuse;
    }

    function Translate(va: int): Option<Leaf>
      reads this
    {
      if AlignDown(va) in table then Some(table[AlignDown(va)]) else None
    }

    /** One fresh 4 KiB leaf, or an error and no leaf. */
    method Map4k(va: int, pa: int, flags: int) returns (ok: bool)
      modifies this
      ensures ok ==> va !in old(table) && table == old(table)[va := Leaf(pa, flags)]
      ensures !ok ==> table == old(table)
      ensures !ok <==> !Canonical(va) || !Aligned(va) || !Aligned(pa) || va in old(table) || refuse(old(calls))
      ensures calls == old(calls) + 1
    {
      ok := Canonical(va) && Aligned(va) && Aligned(pa) && va !in table && !refuse(calls);
      calls := calls + 1;
      if ok { table := table[va := Leaf(pa, flags)]; }
    }

    /** A call numbered in `[from, upto)` fails for want of a frame. */
    ghost predicate Refused(from: nat, upto: nat) {
      exists k :: from <= k < upto && refuse(k)
    }

    /** Maps the missing pages of `[phys, phys + len)`: all of them if the answer is true. It panics exactly
        when rounding the end up overflows, and else fails exactly when a missing page has no canonical
        address or one of its calls, one for each page it maps, is refused. */
    method MapGap(phys: int, len: int, flags: int) returns (r: Outcome)
      requires IsWord(phys) && IsWord(len)
      modifies this
      ensures r == Panic <==> len > 0 && phys + len > WORD - PAGE
      ensures r == Panic ==> table == old(table)
      ensures r == Done(true) <==> r != Panic && Covered(table, phys, len)
      ensures old(calls) <= calls && calls - old(calls) == |table| - |old(table)| + if r == Done(false) then 1 else 0
      ensures r == Done(true) <==> r != Panic && GapsCanonical(old(table), phys, len) && !Refused(old(calls), calls)
      ensures Kept(old(table), table) && Filled(old(table), table, phys, len, flags)
    {
      hide Kept, Filled, CoveredBelow, GapsCanonicalBelow, GapsCanonical, Touches;
      SameTable(table, phys, len, flags);
      if len == 0 {
        NoGaps(table, phys);
        NothingTouches(table, phys);
        return Done(true);
      }
      Rounded(phys, len);
      var start := AlignDown(phys);
      var up := AlignUp(SaturatingAdd(phys, len));
      if up.None? { return Panic; }
      var end := up.value;
      var p := start;
      CoveredStart(table, phys, len);
      CanonicalStart(table, phys, len);
      while p < end
        invariant start <= p <= end && Aligned(p)
        invariant Kept(old(table), table) && Filled(old(table), table, phys, len, flags)
        invariant CoveredBelow(table, phys, len, p) && GapsCanonicalBelow(old(table), phys, len, p)
        invariant NewCanonical(old(table), table)
        invariant calls - old(calls) == |table| - |old(table)| && old(calls) <= calls && !Refused(old(calls), calls)
      {
        VaOffset(p);
        if Translate(Va(p)).None? {
          FilledMore(old(table), table, phys, len, flags, p);
          CoveredMore(table, phys, len, p, Leaf(p, flags));
          KeptOut(old(table), table, Va(p));
          var ok := Map4k(Va(p), p, flags);
          if !ok {
            if !Canonical(Va(p)) { NotCanonical(old(table), phys, len, p); }
            return Done(false);
          }
        }
        CoveredNext(table, phys, len, p);
        CanonicalNext(old(table), phys, len, p);
        // so the loop never leaves through an overflowing step
        assert p + PAGE < WORD;
        p := p + PAGE;
      }
      CoveredEnd(table, phys, len, end);
      CanonicalEnd(old(table), phys, len, end);
      return Done(true);
    }

    /** The byte the processor reads at a virtual address. */
    ghost predicate Reads(va: int, b: Byte)
      reads this
    {
      Translate(va).Some? && b == memory(Translate(va).value.frame + va % PAGE)
    }

    /** Copies bytes out of the physmap once every page they lie on is mapped: exactly the requested
        physical bytes, up to any `top` below which the physmap shows pages at their own addresses. */
    method Read(addr: int, buf: array<Byte>, flags: int, ghost top: int) returns (r: Outcome)
      requires IsWord(addr) && IsWord(buf.Length)
      modifies this, buf
      ensures r == Panic <==> buf.Length > 0 && WORD - PAGE < addr + buf.Length < WORD
      ensures r == Done(true) <==>
        || buf.Length == 0
        || (r != Panic && addr + buf.Length < WORD && GapsCanonical(old(table), addr, buf.Length) && !Refused(old(calls), calls))
      ensures r != Done(true) ==> buf[..] == old(buf[..])
      ensures r == Done(true) ==> forall i :: 0 <= i < buf.Length ==> Reads(Va(addr + i), buf[i])
      ensures r == Done(true) && addr + buf.Length <= top <= WORD && OwnFrames(old(table), top) ==>
        OwnFrames(table, top) && forall i :: 0 <= i < buf.Length ==> buf[i] == memory(addr + i)
      ensures Kept(old(table), table) && Filled(old(table), table, addr, buf.Length, flags)
    {
      hide Kept, Filled, OwnFrames, Covered;
      SameTable(table, addr, buf.Length, flags);
      if buf.Length == 0 { return Done(true); }
      if addr + buf.Length >= WORD { return Done(false); }
      r := MapGap(addr, buf.Length, flags);
      if r != Done(true) { return; }
      Copy(addr, buf);
      if addr + buf.Length <= top <= WORD && OwnFrames(old(table), top) {
        FilledOwn(old(table), table, addr, buf.Length, flags, top);
        ReadOwn(addr, buf, top);
      }
    }

    method Copy(addr: int, buf: array<Byte>)
      requires IsWord(addr) && addr + buf.Length < WORD && Covered(table, addr, buf.Length)
      modifies buf
      ensures forall i :: 0 <= i < buf.Length ==> Reads(Va(addr + i), buf[i])
    {
      hide Touches;
      for i := 0 to buf.Length
        invariant forall k :: 0 <= k < i ==> Reads(Va(addr + k), buf[k])
      {
        PageTouches(addr, buf.Length, addr + i);
        VaOffset(addr + i);
        buf[i] := memory(table[AlignDown(Va(addr + i))].frame + Va(addr + i) % PAGE);
      }
    }

    lemma ReadOwn(addr: int, buf: array<Byte>, top: int)
      requires IsWord(addr) && addr + buf.Length <= top <= WORD && OwnFrames(table, top)
      requires forall i :: 0 <= i < buf.Length ==> Reads(Va(addr + i), buf[i])
      ensures forall i :: 0 <= i < buf.Length ==> buf[i] == memory(addr + i)
    {
      forall i | 0 <= i < buf.Length
        ensures buf[i] == memory(addr + i)
      {
        assert Reads(Va(addr + i), buf[i]);
        VaOffset(addr + i);
      }
    }
  }

  lemma PageTouches(phys: int, len: int, x: int)
    requires phys <= x < phys + len
    ensures Touches(phys, len, AlignDown(x))
  {
  }
}
