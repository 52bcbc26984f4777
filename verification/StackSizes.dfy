/** The `.stack_sizes` section: function addresses and ULEB128 frame sizes. */
module StackSizes {
  import opened Wrappers

  type Byte = x: int | 0 <= x < 256

  // ---- ULEB128

  /** A number and the offset after it, or a ValueError. */
  datatype Number = Truncated | Number(value: nat, next: nat)

  /** The number at `at`. */
  function Uleb(data: seq<Byte>, at: nat): (r: Number)
    ensures r.Number? ==> at < r.next <= |data|
    decreases |data| - at
  {
    if at >= |data| then Truncated
    else if data[at] < 128 then Number(data[at], at + 1)
    else
      var rest := Uleb(data, at + 1);
      if rest.Truncated? then Truncated else Number(data[at] - 128 + 128 * rest.value, rest.next)
  }

  /** A value whose groups up to `weight` are in `value` and whose others follow. */
  ghost function Continue(value: nat, weight: nat, rest: Number): Number {
    if rest.Truncated? then Truncated else Number(value + weight * rest.value, rest.next)
  }

  lemma ContinueStep(data: seq<Byte>, at: nat, value: nat, weight: nat)
    requires at < |data|
    ensures Continue(value, weight, Uleb(data, at)) ==
      if data[at] < 128 then Number(value + data[at] % 128 * weight, at + 1)
      else Continue(value + data[at] % 128 * weight, weight * 128, Uleb(data, at + 1))
  {
    var rest := Uleb(data, at + 1);
    if data[at] >= 128 && rest.Number? {
      var low, more := data[at] - 128, rest.value;
      assert weight * (low + 128 * more) == low * weight + weight * 128 * more;
    }
  }

  /** `uleb128`: `value` is below `weight`, so or-ing in a shifted group adds it. */
  method ReadUleb(data: seq<Byte>, start: nat) returns (r: Number)
    ensures r == Uleb(data, start)
  {
    hide Uleb, Continue;
    var value: nat, weight: nat, at := 0, 1, start;
    ContinueNothing(Uleb(data, start));
    while true
      invariant Continue(value, weight, Uleb(data, at)) == Uleb(data, start)
      invariant value < weight
      decreases |data| - at
    {
      if at >= |data| {
        ContinueEnd(data, at, value, weight);
        return Truncated;
      }
      ContinueStep(data, at, value, weight);
      GroupFits(value, weight, data[at] % 128);
      var b := data[at];
      at := at + 1;
      value := value + b % 128 * weight;
      weight := weight * 128;
      if b < 128 {
        return Number(value, at);
      }
    }
  }

  /** A group added above `value` stays below the next weight. */
  lemma GroupFits(value: nat, weight: nat, group: nat)
    requires value < weight && group < 128
    ensures value + group * weight < weight * 128
  {
    assert group * weight <= 127 * weight;
  }

  lemma ContinueNothing(rest: Number)
    ensures Continue(0, 1, rest) == rest
  {
  }

  lemma {:induction false} ContinueEnd(data: seq<Byte>, at: nat, value: nat, weight: nat)
    requires at >= |data|
    ensures Continue(value, weight, Uleb(data, at)) == Truncated
  {
  }

  function EncodeUleb(n: nat): (bs: seq<Byte>)
    ensures |bs| > 0
  {
    if n < 128 then [n] else [n % 128 + 128] + EncodeUleb(n / 128)
  }

  /** Whatever surrounds it, an encoded number is read back and passed. */
  lemma {:induction false} UlebRoundTrip(before: seq<Byte>, n: nat, after: seq<Byte>)
    ensures Uleb(before + EncodeUleb(n) + after, |before|) == Number(n, |before| + |EncodeUleb(n)|)
    decreases n
  {
    var data := before + EncodeUleb(n) + after;
    assert data[|before|] == EncodeUleb(n)[0];
    if n >= 128 {
      var first := [n % 128 + 128];
      UlebRoundTrip(before + first, n / 128, after);
      assert data == before + first + EncodeUleb(n / 128) + after;
    }
  }

  /** A number cut short is not read. */
  lemma {:induction false} UlebCut(before: seq<Byte>, n: nat, k: nat)
    requires k < |EncodeUleb(n)|
    ensures Uleb(before + EncodeUleb(n)[..k], |before|) == Truncated
    decreases n
  {
    if k > 0 {
      var first := [n % 128 + 128];
      assert EncodeUleb(n) == first + EncodeUleb(n / 128);
      assert EncodeUleb(n)[..k] == first + EncodeUleb(n / 128)[..k - 1];
      var data := before + EncodeUleb(n)[..k];
      assert data == before + first + EncodeUleb(n / 128)[..k - 1];
      assert data[|before|] == first[0];
      UlebCut(before + first, n / 128, k - 1);
    }
  }

  // ---- addresses

  /** The little-endian number in `bs`. */
  function Little(bs: seq<Byte>): nat {
    if bs == [] then 0 else bs[0] + 256 * Little(bs[1..])
  }

  function EncodeLittle(n: nat, width: nat): (bs: seq<Byte>)
    ensures |bs| == width
  {
    if width == 0 then [] else [n % 256] + EncodeLittle(n / 256, width - 1)
  }

  function Pow256(k: nat): nat {
    if k == 0 then 1 else 256 * Pow256(k - 1)
  }

  lemma {:induction false} LittleRoundTrip(n: nat, width: nat)
    requires n < Pow256(width)
    ensures Little(EncodeLittle(n, width)) == n
  {
    if width > 0 {
      LittleRoundTrip(n / 256, width - 1);
      assert EncodeLittle(n, width)[1..] == EncodeLittle(n / 256, width - 1);
    }
  }

  function EncodeAddr(addr: nat): (bs: seq<Byte>)
    ensures |bs| == 8
  {
    EncodeLittle(addr, 8)
  }

  lemma AddrRoundTrip(addr: nat)
    requires addr < TWO64
    ensures Little(EncodeAddr(addr)) == addr
  {
    Pow8();
    LittleRoundTrip(addr, 8);
  }

  // ---- the section

  function MaxSize(out: map<nat, nat>, addr: nat, size: nat): nat {
    if addr in out && out[addr] > size then out[addr] else size
  }

  /** The section from `at` on, added to `out`; `None` for a truncated entry. */
  function ParseFrom(data: seq<Byte>, at: nat, out: map<nat, nat>): Option<map<nat, nat>>
    requires at <= |data|
    decreases |data| - at
  {
    if at == |data| then Some(out)
    else if at + 8 > |data| then None
    else
      var size := Uleb(data, at + 8);
      if size.Truncated? then None else
      var addr := Little(data[at..at + 8]);
      ParseFrom(data, size.next, out[addr := MaxSize(out, addr, size.value)])
  }

  method ParseStackSizes(data: seq<Byte>) returns (r: Option<map<nat, nat>>)
    ensures r == ParseFrom(data, 0, map[])
  {
    var out: map<nat, nat> := map[];
    var at := 0;
    while at < |data|
      invariant 0 <= at <= |data| && ParseFrom(data, at, out) == ParseFrom(data, 0, map[])
      decreases |data| - at
    {
      if at + 8 > |data| {
        return None;
      }
      var addr := Little(data[at..at + 8]);
      var size := ReadUleb(data, at + 8);
      if size.Truncated? {
        return None;
      }
      at := size.next;
      out := out[addr := MaxSize(out, addr, size.value)];
    }
    r := Some(out);
  }

  datatype Entry = Entry(addr: nat, size: nat)

  const TWO64 := 0x1_0000_0000_0000_0000

  ghost predicate Fits(entries: seq<Entry>) {
    forall i :: 0 <= i < |entries| ==> entries[i].addr < TWO64
  }

  function EncodeEntry(e: Entry): (bs: seq<Byte>)
    ensures |bs| > 8
  {
    EncodeAddr(e.addr) + EncodeUleb(e.size)
  }

  function EncodeAll(entries: seq<Entry>): seq<Byte> {
    if entries == [] then [] else EncodeEntry(entries[0]) + EncodeAll(entries[1..])
  }

  /** `out` with each entry's address at its largest size. */
  ghost function Collect(entries: seq<Entry>, out: map<nat, nat>): map<nat, nat>
    decreases |entries|
  {
    if entries == [] then out
    else Collect(entries[1..], out[entries[0].addr := MaxSize(out, entries[0].addr, entries[0].size)])
  }

  lemma Pow8()
    ensures Pow256(8) == TWO64
  {
    assert Pow256(4) == 0x1_0000_0000;
    assert Pow256(8) == 256 * (256 * (256 * (256 * Pow256(4))));
  }

  lemma {:induction false} EntryReads(data: seq<Byte>, before: seq<Byte>, e: Entry, after: seq<Byte>)
    requires e.addr < TWO64 && data == before + EncodeEntry(e) + after
    ensures |before| + 8 <= |data| && Little(data[|before|..|before| + 8]) == e.addr
    ensures Uleb(data, |before| + 8) == Number(e.size, |before| + |EncodeEntry(e)|)
  {
    hide Uleb, Little, EncodeAddr, EncodeUleb;
    AddrRoundTrip(e.addr);
    PartsRead(data, before, EncodeAddr(e.addr), e.size, after);
  }

  lemma {:induction false} PartsRead(data: seq<Byte>, before: seq<Byte>, addr: seq<Byte>, n: nat, after: seq<Byte>)
    requires |addr| == 8 && data == before + (addr + EncodeUleb(n)) + after
    ensures |before| + 8 <= |data| && data[|before|..|before| + 8] == addr
    ensures Uleb(data, |before| + 8) == Number(n, |before| + (8 + |EncodeUleb(n)|))
  {
    hide Uleb, EncodeUleb;
    Regroup(before, addr, EncodeUleb(n), after);
    AddrSlice(data, before, addr, EncodeUleb(n) + after);
    UlebRoundTrip(before + addr, n, after);
  }

  lemma Regroup(a: seq<Byte>, b: seq<Byte>, c: seq<Byte>, d: seq<Byte>)
    ensures a + (b + c) + d == a + b + c + d == a + b + (c + d)
  {
  }

  lemma AddrSlice(data: seq<Byte>, before: seq<Byte>, addr: seq<Byte>, after: seq<Byte>)
    requires |addr| == 8 && data == before + addr + after
    ensures |before| + 8 <= |data| && data[|before|..|before| + 8] == addr
  {
  }

  /** How many entries the first `k` bytes hold, when they hold whole entries. */
  ghost function WholeEntries(entries: seq<Entry>, k: nat): (n: Option<nat>)
    ensures n.Some? ==> n.value <= |entries|
    decreases |entries|
  {
    if k == 0 then Some(0)
    else if entries == [] || k < |EncodeEntry(entries[0])| then None
    else
      var n := WholeEntries(entries[1..], k - |EncodeEntry(entries[0])|);
      if n.None? then None else Some(n.value + 1)
  }

  /** `k` bytes are whole entries exactly when some number of entries takes `k` bytes. */
  lemma {:induction false} WholeExactly(entries: seq<Entry>, k: nat, n: nat)
    requires n <= |entries|
    ensures WholeEntries(entries, k) == Some(n) <==> |EncodeAll(entries[..n])| == k
    decreases |entries|
  {
    hide EncodeEntry;
    if entries != [] {
      var size := |EncodeEntry(entries[0])|;
      if n > 0 {
        assert entries[..n][1..] == entries[1..][..n - 1];
        if k >= size { WholeExactly(entries[1..], k - size, n - 1); }
      }
    }
  }

  /** Reading a prefix of encoded entries collects the whole entries, and fails on a partial one. */
  lemma {:induction false} ParsePrefix(before: seq<Byte>, entries: seq<Entry>, k: nat, out: map<nat, nat>)
    requires Fits(entries) && k <= |EncodeAll(entries)|
    ensures var n := WholeEntries(entries, k);
      ParseFrom(before + EncodeAll(entries)[..k], |before|, out) ==
        if n.None? then None else Some(Collect(entries[..n.value], out))
    decreases |entries|
  {
    hide Uleb, Little, EncodeEntry;
    var data := before + EncodeAll(entries)[..k];
    if k > 0 {
      var e := entries[0];
      var bs := EncodeEntry(e);
      var rest := EncodeAll(entries[1..]);
      if k < |bs| {
        assert EncodeAll(entries)[..k] == bs[..k];
        EntryCut(before, e, k, out);
      } else {
        var after := rest[..k - |bs|];
        assert EncodeAll(entries)[..k] == bs + after;
        assert data == before + bs + after;
        EntryReads(data, before, e, after);
        var out' := out[e.addr := MaxSize(out, e.addr, e.size)];
        ParsePrefix(before + bs, entries[1..], k - |bs|, out');
        var n := WholeEntries(entries, k);
        if n.Some? {
          assert entries[..n.value][1..] == entries[1..][..n.value - 1];
        }
      }
    }
  }

  lemma {:induction false} EntryCut(before: seq<Byte>, e: Entry, k: nat, out: map<nat, nat>)
    requires 0 < k < |EncodeEntry(e)|
    ensures ParseFrom(before + EncodeEntry(e)[..k], |before|, out) == None
  {
    hide Uleb, Little, EncodeAddr, EncodeUleb;
    if k >= 8 {
      var addr, size := EncodeAddr(e.addr), EncodeUleb(e.size);
      assert EncodeEntry(e)[..k] == addr + size[..k - 8];
      assert before + EncodeEntry(e)[..k] == before + addr + size[..k - 8];
      UlebCut(before + addr, e.size, k - 8);
    }
  }

  /** `out` holds exactly the entries' addresses, each with its largest size. */
  ghost predicate LargestSizes(entries: seq<Entry>, out: map<nat, nat>) {
    && (forall i :: 0 <= i < |entries| ==> entries[i].addr in out && entries[i].size <= out[entries[i].addr])
    && (forall a :: a in out ==> exists i :: 0 <= i < |entries| && entries[i] == Entry(a, out[a]))
  }

  lemma {:induction false} CollectLargest(done: seq<Entry>, entries: seq<Entry>, out: map<nat, nat>)
    requires LargestSizes(done, out)
    ensures LargestSizes(done + entries, Collect(entries, out))
    decreases |entries|
  {
    if entries == [] {
      assert done + entries == done;
    } else {
      var e := entries[0];
      LargestStep(done, e, out);
      CollectLargest(done + [e], entries[1..], out[e.addr := MaxSize(out, e.addr, e.size)]);
      assert done + [e] + entries[1..] == done + entries;
    }
  }

  lemma LargestStep(done: seq<Entry>, e: Entry, out: map<nat, nat>)
    requires LargestSizes(done, out)
    ensures LargestSizes(done + [e], out[e.addr := MaxSize(out, e.addr, e.size)])
  {
    var out' := out[e.addr := MaxSize(out, e.addr, e.size)];
    var all := done + [e];
    assert forall i :: 0 <= i < |done| ==> all[i] == done[i];
    forall a | a in out'
      ensures exists i :: 0 <= i < |all| && all[i] == Entry(a, out'[a])
    {
      if a == e.addr && out'[a] == e.size {
        assert all[|done|] == Entry(a, out'[a]);
      } else {
        var i :| 0 <= i < |done| && done[i] == Entry(a, out[a]);
        assert all[i] == Entry(a, out'[a]);
      }
    }
  }

  /** Reading the first `k` bytes of any encoded list succeeds exactly when they end between entries, and
      then gives each address read its largest size; in particular the whole list is read. */
  lemma {:induction false} StackSizesRoundTrip(entries: seq<Entry>, k: nat)
    requires Fits(entries) && k <= |EncodeAll(entries)|
    ensures ParseFrom(EncodeAll(entries)[..k], 0, map[]).Some?
       <==> exists n :: 0 <= n <= |entries| && |EncodeAll(entries[..n])| == k
    ensures forall n :: 0 <= n <= |entries| && |EncodeAll(entries[..n])| == k ==>
      LargestSizes(entries[..n], ParseFrom(EncodeAll(entries)[..k], 0, map[]).value)
  {
    hide ParseFrom, EncodeAll, WholeEntries, LargestSizes, Fits;
    ParsePrefix([], entries, k, map[]);
    assert [] + EncodeAll(entries)[..k] == EncodeAll(entries)[..k];
    forall n | 0 <= n <= |entries|
      ensures WholeEntries(entries, k) == Some(n) <==> |EncodeAll(entries[..n])| == k
      ensures LargestSizes(entries[..n], Collect(entries[..n], map[]))
    {
      WholeExactly(entries, k, n);
      NoSizes();
      CollectLargest([], entries[..n], map[]);
      assert [] + entries[..n] == entries[..n];
    }
  }

  lemma NoSizes()
    ensures LargestSizes([], map[])
  {
  }
}
