/** The program-header checks of a user ELF, and why a list of segments that passes them can be loaded page by page. */
module UserElf {

  const PAGE: int := 0x1000
  const LIMIT: int := 0x8000_0000
  const PT_LOAD: int := 1
  const PT_DYNAMIC: int := 2
  const PT_INTERP: int := 3

  /** One program header; the fields are the unsigned numbers read from the file. */
  datatype Phdr = Phdr(kind: nat, flags: nat, offset: nat, vaddr: nat, filesz: nat, memsz: nat)

  datatype Range = Range(lo: int, hi: int)

  function PageDown(x: int): int {
    x - x % PAGE
  }

  function PageUp(x: int): int {
    PageDown(x + PAGE - 1)
  }

  predicate Meet(a: Range, b: Range) {
    a.lo < b.hi && b.lo < a.hi
  }

  /** The whole pages around `size` bytes at `at`. */
  function Around(at: int, size: int): Range {
    Range(PageDown(at), PageUp(at + size))
  }

  // ---- sharing

  /** Some 4 KiB page holds a byte of both stretches. */
  ghost predicate SharePage(a: int, asize: int, b: int, bsize: int) {
    exists x, y :: a <= x < a + asize && b <= y < b + bsize && SamePage(x, y)
  }

  predicate SamePage(x: int, y: int) {
    x / PAGE == y / PAGE
  }

  lemma Pages(x: int)
    ensures PageDown(x) == x / PAGE * PAGE && PageDown(x) <= x < PageDown(x) + PAGE
    ensures PageUp(x) == (x + PAGE - 1) / PAGE * PAGE && x <= PageUp(x) < x + PAGE
  {
  }

  /** Two multiples of the page size that differ lie a page apart. */
  lemma Apart(j: int, k: int)
    ensures j * PAGE < k * PAGE <==> (j + 1) * PAGE <= k * PAGE
  {
  }

  /** The check on whole pages is exactly sharing of a page. */
  lemma MeetExactly(a: int, asize: nat, b: int, bsize: nat)
    ensures asize > 0 && bsize > 0 && Meet(Around(a, asize), Around(b, bsize)) <==> SharePage(a, asize, b, bsize)
  {
    if asize > 0 && bsize > 0 && Meet(Around(a, asize), Around(b, bsize)) {
      // the later of the two starts, against the page of the other's last byte
      MeetShares(a, asize, b, bsize);
    }
    if SharePage(a, asize, b, bsize) {
      var x, y :| a <= x < a + asize && b <= y < b + bsize && SamePage(x, y);
      SharesMeet(a, asize, b, bsize, x, y);
    }
  }

  lemma SharesMeet(a: int, asize: nat, b: int, bsize: nat, x: int, y: int)
    requires a <= x < a + asize && b <= y < b + bsize && SamePage(x, y)
    ensures Meet(Around(a, asize), Around(b, bsize))
  {
    InsideAround(a, asize, x);
    InsideAround(b, bsize, y);
  }

  /** The page of a byte lies within the pages around its stretch. */
  lemma InsideAround(a: int, asize: nat, x: int)
    requires a <= x < a + asize
    ensures Around(a, asize).lo <= x / PAGE * PAGE && x / PAGE * PAGE + PAGE <= Around(a, asize).hi
  {
    Pages(a);
    Pages(a + asize);
    Pages(x);
    Between(a / PAGE, x / PAGE, (a + asize + PAGE - 1) / PAGE, a, asize, x);
  }

  lemma Between(j: int, k: int, m: int, a: int, asize: nat, x: int)
    requires a <= x < a + asize && j * PAGE <= a && k * PAGE <= x < k * PAGE + PAGE
    requires a + asize <= m * PAGE
    ensures j * PAGE <= k * PAGE && k * PAGE + PAGE <= m * PAGE
  {
  }

  lemma MeetShares(a: int, asize: nat, b: int, bsize: nat)
    requires asize > 0 && bsize > 0 && Meet(Around(a, asize), Around(b, bsize))
    ensures SharePage(a, asize, b, bsize)
  {
    if a / PAGE <= b / PAGE {
      Touches(a, asize, b);
      var x :| a <= x < a + asize && SamePage(x, b);
      assert SamePage(x, b);
    } else {
      Touches(b, bsize, a);
      var y :| b <= y < b + bsize && SamePage(y, a);
      assert SamePage(a, y);
    }
  }

  /** A stretch whose whole pages reach past the start of page `y / PAGE` has a byte on that page. */
  lemma Touches(a: int, asize: nat, y: int)
    requires asize > 0 && a / PAGE <= y / PAGE && PageDown(y) < PageUp(a + asize)
    ensures exists x :: a <= x < a + asize && SamePage(x, y)
  {
    Pages(a);
    Pages(y);
    Pages(a + asize);
    if a / PAGE == y / PAGE {
      assert SamePage(a, y);
    } else {
      Apart(a / PAGE, y / PAGE);
      Apart(y / PAGE, (a + asize + PAGE - 1) / PAGE);
      assert a <= PageDown(y) < a + asize;
      assert SamePage(PageDown(y), y);
    }
  }

  // ---- the checks

  datatype Problem =
    | Interp(i: nat)
    | Dynamic(i: nat)
    | PastLimit(i: nat)
    | WriteExec(i: nat)
    | SharedMemory(i: nat, j: nat)
    | SharedFile(i: nat, j: nat)

  const PF_X := 1
  const PF_W := 2

  /** The two lowest bits. */
  function LowBits(flags: nat): nat { flags % 4 }

  predicate Writable(p: Phdr) { p.flags / 2 % 2 == 1 }

  predicate Executable(p: Phdr) { p.flags % 2 == 1 }

  predicate IsLoad(ps: seq<Phdr>, i: nat) {
    i < |ps| && ps[i].kind == PT_LOAD
  }

  /** The problems headers have on their own. */
  ghost predicate OwnProblem(ps: seq<Phdr>, e: Problem) {
    match e
    case Interp(i) => i < |ps| && ps[i].kind == PT_INTERP
    case Dynamic(i) => i < |ps| && ps[i].kind == PT_DYNAMIC
    case PastLimit(i) => IsLoad(ps, i) && ps[i].vaddr + ps[i].memsz > LIMIT
    case WriteExec(i) => IsLoad(ps, i) && LowBits(ps[i].flags) == PF_X + PF_W
    case SharedMemory(_, _) => false
    case SharedFile(_, _) => false
  }

  /** The problems of a pair of segments: a page with a byte of both, in memory or in the file. */
  ghost predicate PairProblem(ps: seq<Phdr>, e: Problem) {
    match e
    case SharedMemory(i, j) =>
      i < j && IsLoad(ps, i) && IsLoad(ps, j) && SharePage(ps[i].vaddr, ps[i].memsz, ps[j].vaddr, ps[j].memsz)
    case SharedFile(i, j) =>
      i < j && IsLoad(ps, i) && IsLoad(ps, j) && SharePage(ps[i].offset, ps[i].filesz, ps[j].offset, ps[j].filesz)
    case _ => false
  }

  /** Each header in turn; `loads` are the segments, in order. */
  method CheckHeaders(ps: seq<Phdr>) returns (errs: seq<Problem>, loads: seq<nat>)
    ensures forall e :: e in errs <==> OwnProblem(ps, e)
    ensures forall i :: i in loads <==> IsLoad(ps, i)
    ensures forall m, n :: 0 <= m < n < |loads| ==> loads[m] < loads[n]
  {
    hide OwnProblem, Writable, Executable, LowBits;
    errs, loads := [], [];
    NoHeaders();
    assert ps[..0] == [];
    for i := 0 to |ps|
      invariant forall e :: e in errs <==> OwnProblem(ps[..i], e)
      invariant forall k :: k in loads <==> IsLoad(ps[..i], k)
      invariant forall m, n :: 0 <= m < n < |loads| ==> loads[m] < loads[n]
    {
      ghost var before := errs;
      var p := ps[i];
      var own: seq<Problem> := [];
      if p.kind == PT_INTERP {
        own := [Interp(i)];
      } else if p.kind == PT_DYNAMIC {
        own := [Dynamic(i)];
      } else if p.kind == PT_LOAD {
        BothBits(p);
        own := (if p.vaddr + p.memsz > LIMIT then [PastLimit(i)] else [])
             + (if Writable(p) && Executable(p) then [WriteExec(i)] else []);
        assert forall m :: 0 <= m < |loads| ==> loads[m] in loads;
        loads := loads + [i];
      }
      errs := errs + own;
      OneMore(ps, i, before, own);
    }
    assert ps[..|ps|] == ps;
  }

  lemma BothBits(p: Phdr)
    ensures Writable(p) && Executable(p) <==> LowBits(p.flags) == PF_X + PF_W
  {
  }

  lemma NoHeaders()
    ensures forall e :: !OwnProblem([], e)
  {
  }

  lemma OneMore(ps: seq<Phdr>, i: nat, before: seq<Problem>, own: seq<Problem>)
    requires i < |ps| && forall e :: e in before <==> OwnProblem(ps[..i], e)
    requires forall e :: e in own <==>
      || (ps[i].kind == PT_INTERP && e == Interp(i))
      || (ps[i].kind == PT_DYNAMIC && e == Dynamic(i))
      || (ps[i].kind == PT_LOAD && ps[i].vaddr + ps[i].memsz > LIMIT && e == PastLimit(i))
      || (ps[i].kind == PT_LOAD && LowBits(ps[i].flags) == PF_X + PF_W && e == WriteExec(i))
    ensures forall e :: e in before + own <==> OwnProblem(ps[..i + 1], e)
  {
    hide LowBits;
    var ps' := ps[..i + 1];
    assert forall k :: 0 <= k < i ==> ps'[k] == ps[..i][k];
    assert ps'[i] == ps[i];
  }

  /** The problems of one pair. */
  function PairErrors(ps: seq<Phdr>, i: nat, j: nat): (errs: seq<Problem>)
    requires i < j < |ps| && ps[i].kind == PT_LOAD && ps[j].kind == PT_LOAD
    ensures forall e :: e in errs <==> PairProblem(ps, e) && (e == SharedMemory(i, j) || e == SharedFile(i, j))
  {
    var a, b := ps[i], ps[j];
    MeetExactly(a.vaddr, a.memsz, b.vaddr, b.memsz);
    MeetExactly(a.offset, a.filesz, b.offset, b.filesz);
    (if a.memsz > 0 && b.memsz > 0 && Meet(Around(a.vaddr, a.memsz), Around(b.vaddr, b.memsz))
     then [SharedMemory(i, j)] else [])
    + (if a.filesz > 0 && b.filesz > 0 && Meet(Around(a.offset, a.filesz), Around(b.offset, b.filesz))
       then [SharedFile(i, j)] else [])
  }

  ghost predicate About(e: Problem, i: nat, j: nat) {
    e == SharedMemory(i, j) || e == SharedFile(i, j)
  }

  method CheckPairs(ps: seq<Phdr>, loads: seq<nat>) returns (errs: seq<Problem>)
    requires forall i :: i in loads <==> IsLoad(ps, i)
    requires forall m, n :: 0 <= m < n < |loads| ==> loads[m] < loads[n]
    ensures forall e :: e in errs <==> PairProblem(ps, e)
  {
    errs := [];
    for m := 0 to |loads|
      invariant forall e :: e in errs <==>
        PairProblem(ps, e) && exists k, n :: 0 <= k < m && k < n < |loads| && About(e, loads[k], loads[n])
    {
      ghost var outer := errs;
      for n := m + 1 to |loads|
        invariant forall e :: e in errs <==>
          e in outer || (PairProblem(ps, e) && exists k :: m < k < n && About(e, loads[m], loads[k]))
      {
        assert loads[m] in loads && loads[n] in loads;
        errs := errs + PairErrors(ps, loads[m], loads[n]);
      }
    }
    forall e | PairProblem(ps, e)
      ensures exists k, n :: 0 <= k < |loads| && k < n < |loads| && About(e, loads[k], loads[n])
    {
      assert e.i in loads && e.j in loads;
      var k :| 0 <= k < |loads| && loads[k] == e.i;
      var n :| 0 <= n < |loads| && loads[n] == e.j;
      assert About(e, loads[k], loads[n]);
    }
  }

  method CheckSegments(ps: seq<Phdr>) returns (errs: seq<Problem>)
    ensures forall e :: e in errs <==> OwnProblem(ps, e) || PairProblem(ps, e)
  {
    var own, loads := CheckHeaders(ps);
    var pairs := CheckPairs(ps, loads);
    errs := own + pairs;
  }

  // ---- loading

  type Byte = bv8

  /** Memory by page number. */
  type Memory = map<int, seq<Byte>>

  /** Byte `k` of a segment: from the file, then zeros. */
  function ByteOf(file: seq<Byte>, p: Phdr, k: nat): Byte {
    if k < p.filesz && p.offset + k < |file| then file[p.offset + k] else 0
  }

  /** Page `n` as the segment fills it; the rest of the page is cleared. */
  function PageOf(file: seq<Byte>, p: Phdr, n: int): (page: seq<Byte>)
    ensures |page| == PAGE
  {
    seq(PAGE, k requires 0 <= k < PAGE =>
      var at := n * PAGE + k;
      if p.vaddr <= at < p.vaddr + p.memsz then ByteOf(file, p, at - p.vaddr) else 0)
  }

  /** Every page the segment has a byte on, written whole. */
  function LoadOne(file: seq<Byte>, p: Phdr, mem: Memory): Memory {
    mem + map n | p.vaddr / PAGE <= n <= (p.vaddr + p.memsz - 1) / PAGE && p.memsz > 0 :: PageOf(file, p, n)
  }

  function Load(file: seq<Byte>, ps: seq<Phdr>, mem: Memory): Memory {
    if ps == [] then mem else LoadOne(file, ps[|ps| - 1], Load(file, ps[..|ps| - 1], mem))
  }

  /** Memory holds the bytes of the segment. */
  ghost predicate Holds(file: seq<Byte>, mem: Memory, p: Phdr) {
    forall x :: p.vaddr <= x < p.vaddr + p.memsz ==> HoldsAt(file, mem, p, x)
  }

  ghost predicate HoldsAt(file: seq<Byte>, mem: Memory, p: Phdr, x: int)
    requires p.vaddr <= x
  {
    x / PAGE in mem && |mem[x / PAGE]| == PAGE && mem[x / PAGE][x % PAGE] == ByteOf(file, p, x - p.vaddr)
  }

  ghost predicate Share(p: Phdr, q: Phdr) {
    SharePage(p.vaddr, p.memsz, q.vaddr, q.memsz)
  }

  lemma LoadsItself(file: seq<Byte>, p: Phdr, mem: Memory)
    ensures Holds(file, LoadOne(file, p, mem), p)
  {
    forall x | p.vaddr <= x < p.vaddr + p.memsz
      ensures HoldsAt(file, LoadOne(file, p, mem), p, x)
    {
      assert x == x / PAGE * PAGE + x % PAGE;
      DivBetween(p.vaddr, x, p.vaddr + p.memsz - 1);
      assert PageOf(file, p, x / PAGE)[x % PAGE] == ByteOf(file, p, x - p.vaddr);
    }
  }

  lemma DivBetween(a: int, x: int, b: int)
    requires a <= x <= b
    ensures a / PAGE <= x / PAGE <= b / PAGE
  {
  }

  lemma LoadsBeside(file: seq<Byte>, p: Phdr, q: Phdr, mem: Memory)
    requires Holds(file, mem, q) && !Share(p, q)
    ensures Holds(file, LoadOne(file, p, mem), q)
  {
    forall y | q.vaddr <= y < q.vaddr + q.memsz
      ensures HoldsAt(file, LoadOne(file, p, mem), q, y)
    {
      assert HoldsAt(file, mem, q, y);
      if p.memsz > 0 && p.vaddr / PAGE <= y / PAGE <= (p.vaddr + p.memsz - 1) / PAGE {
        OnPage(p.vaddr, p.memsz, y);
        var x :| p.vaddr <= x < p.vaddr + p.memsz && SamePage(x, y);
        assert SharePage(p.vaddr, p.memsz, q.vaddr, q.memsz);
      }
    }
  }

  lemma OnPage(a: int, size: nat, y: int)
    requires size > 0 && a / PAGE <= y / PAGE <= (a + size - 1) / PAGE
    ensures exists x :: a <= x < a + size && SamePage(x, y)
  {
    var x := if a / PAGE == y / PAGE then a else y / PAGE * PAGE;
    assert SamePage(x, y);
    Pages(a + size - 1);
    Apart(a / PAGE, y / PAGE);
    Apart(y / PAGE, (a + size - 1) / PAGE);
    assert a <= x < a + size;
  }

  /** Segments no two of which share a page all keep their bytes. */
  lemma {:induction false} LoadKeeps(file: seq<Byte>, ps: seq<Phdr>, mem: Memory)
    requires forall i, j :: 0 <= i < j < |ps| ==> !Share(ps[j], ps[i])
    ensures forall i :: 0 <= i < |ps| ==> Holds(file, Load(file, ps, mem), ps[i])
  {
    if ps != [] {
      hide Share, Holds, LoadOne;
      var front, last := ps[..|ps| - 1], ps[|ps| - 1];
      LoadKeeps(file, front, mem);
      LoadsItself(file, last, Load(file, front, mem));
      forall i | 0 <= i < |front|
        ensures Holds(file, Load(file, ps, mem), ps[i])
      {
        assert front[i] == ps[i];
        LoadsBeside(file, last, ps[i], Load(file, front, mem));
      }
    }
  }

  lemma ShareBothWays(p: Phdr, q: Phdr)
    ensures Share(p, q) ==> Share(q, p)
  {
    if Share(p, q) {
      var x, y :| p.vaddr <= x < p.vaddr + p.memsz && q.vaddr <= y < q.vaddr + q.memsz && SamePage(x, y);
      assert SamePage(y, x);
    }
  }

  /** Some headers of the list, each at most once, in any order. */
  ghost predicate Ordering(ps: seq<Phdr>, order: seq<nat>) {
    && (forall k :: 0 <= k < |order| ==> IsLoad(ps, order[k]))
    && forall k, l :: 0 <= k < l < |order| ==> order[k] != order[l]
  }

  /** A list without sharing problems loads whole, whatever the order of its segments and whatever was in
      memory before. */
  lemma AcceptedLoads(file: seq<Byte>, ps: seq<Phdr>, order: seq<nat>, mem: Memory)
    requires forall i, j :: !PairProblem(ps, SharedMemory(i, j))
    requires Ordering(ps, order)
    ensures var list := seq(|order|, k requires 0 <= k < |order| => ps[order[k]]);
            forall k :: 0 <= k < |order| ==> Holds(file, Load(file, list, mem), ps[order[k]])
  {
    hide Holds, Load;
    var list := seq(|order|, k requires 0 <= k < |order| => ps[order[k]]);
    forall k, l | 0 <= k < l < |list|
      ensures !Share(list[l], list[k])
    {
      ShareBothWays(list[l], list[k]);
      var i, j := order[k], order[l];
      assert !PairProblem(ps, SharedMemory(i, j)) && !PairProblem(ps, SharedMemory(j, i));
    }
    LoadKeeps(file, list, mem);
    assert forall k :: 0 <= k < |order| ==> list[k] == ps[order[k]];
  }

  /** A list with a sharing problem can lose bytes: here the second segment clears the first one's. */
  lemma SharingLoses()
    ensures var ps := [Phdr(PT_LOAD, 4, 0, 0, 1, 1), Phdr(PT_LOAD, 6, 4096, 1, 0, 1)];
            && PairProblem(ps, SharedMemory(0, 1)) && !Holds([7], Load([7], ps, map[]), ps[0])
  {
    var a, b := Phdr(PT_LOAD, 4, 0, 0, 1, 1), Phdr(PT_LOAD, 6, 4096, 1, 0, 1);
    var ps := [a, b];
    assert SamePage(0, 1);
    assert ps[..1] == [a] && [a][..0] == [];
    var mem := Load([7], ps, map[]);
    assert mem == LoadOne([7], b, Load([7], [a], map[]));
    assert 0 in mem && mem[0] == PageOf([7], b, 0);
    assert !HoldsAt([7], mem, a, 0);
  }
}
