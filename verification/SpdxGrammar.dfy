/** The language `options` reads: which token lists it accepts, and which of those are SPDX expressions. */
module SpdxGrammar {
  import opened Wrappers
  import opened Text
  import opened Spdx

  // ---- the reader's own grammar: an AND is followed by one operand for each option so far, and a WITH by
  // any token

  datatype Part = Name(id: string) | Excepted(id: string, op: string, tail: string) | Nested(e: Reading)
  datatype Parts = One(part: Part) | More(part: Part, rest: Parts)
  datatype Chain = EndChain | AndThen(op: string, parts: Parts, rest: Chain)
  datatype Branch = Branch(part: Part, chain: Chain)
  datatype Branches = NoBranches | OrElse(op: string, branch: Branch, rest: Branches)
  datatype Reading = Reading(branch: Branch, branches: Branches)

  /** How many options each has. */
  ghost function PartCount(p: Part): (n: nat)
    ensures n > 0
  {
    if p.Nested? then ReadingCount(p.e) else 1
  }

  ghost function PartsCount(ps: Parts): (n: nat)
    ensures n > 0
  {
    PartCount(ps.part) + if ps.One? then 0 else PartsCount(ps.rest)
  }

  ghost function ChainCount(n: nat, c: Chain): (m: nat)
    requires n > 0
    ensures m > 0
    decreases c
  {
    if c.EndChain? then n else ChainCount(PartsCount(c.parts), c.rest)
  }

  ghost function BranchCount(b: Branch): (n: nat)
    ensures n > 0
  {
    ChainCount(PartCount(b.part), b.chain)
  }

  ghost function BranchesCount(bs: Branches): nat {
    if bs.NoBranches? then 0 else BranchCount(bs.branch) + BranchesCount(bs.rest)
  }

  ghost function ReadingCount(e: Reading): (n: nat)
    ensures n > 0
  {
    BranchCount(e.branch) + BranchesCount(e.branches)
  }

  ghost function Length(ps: Parts): nat {
    if ps.One? then 1 else 1 + Length(ps.rest)
  }

  ghost predicate PartOk(p: Part) {
    match p
    case Name(id) => IsWord(id)
    case Excepted(id, op, tail) => IsWord(id) && IsWith(op)
    case Nested(e) => ReadingOk(e)
  }

  ghost predicate PartsOk(ps: Parts) { PartOk(ps.part) && (ps.More? ==> PartsOk(ps.rest)) }

  /** A chain on from `n` options. */
  ghost predicate ChainOk(n: nat, c: Chain)
    decreases c
  {
    c.AndThen? ==> IsAnd(c.op) && PartsOk(c.parts) && Length(c.parts) == n && ChainOk(PartsCount(c.parts), c.rest)
  }

  ghost predicate BranchOk(b: Branch) { PartOk(b.part) && ChainOk(PartCount(b.part), b.chain) }

  ghost predicate BranchesOk(bs: Branches) { bs.OrElse? ==> IsOr(bs.op) && BranchOk(bs.branch) && BranchesOk(bs.rest) }

  ghost predicate ReadingOk(e: Reading) { BranchOk(e.branch) && BranchesOk(e.branches) }

  ghost function PartToks(p: Part): (ts: seq<string>)
    ensures |ts| > 0
  {
    match p
    case Name(id) => [id]
    case Excepted(id, op, tail) => [id, op, tail]
    case Nested(e) => ["("] + ReadingToks(e) + [")"]
  }

  ghost function PartsToks(ps: Parts): (ts: seq<string>)
    ensures |ts| > 0
  {
    if ps.One? then PartToks(ps.part) else PartToks(ps.part) + PartsToks(ps.rest)
  }

  ghost function ChainToks(c: Chain): seq<string> {
    if c.EndChain? then [] else [c.op] + PartsToks(c.parts) + ChainToks(c.rest)
  }

  ghost function BranchToks(b: Branch): seq<string> { PartToks(b.part) + ChainToks(b.chain) }

  ghost function BranchesToks(bs: Branches): seq<string> {
    if bs.NoBranches? then [] else [bs.op] + BranchToks(bs.branch) + BranchesToks(bs.rest)
  }

  ghost function ReadingToks(e: Reading): seq<string> { BranchToks(e.branch) + BranchesToks(e.branches) }

  // ---- the options: the options so far, each joined with the options of its own operand

  ghost function PartOpts(p: Part): (r: Opts)
    requires PartOk(p)
    ensures |r| == PartCount(p) && NoneEmpty(r)
  {
    match p
    case Name(id) => [{id}]
    case Excepted(id, op, tail) => [{id + " WITH " + tail}]
    case Nested(e) => ReadingOpts(e)
  }

  ghost function Joined(r: Opts, ps: Parts): (res: Opts)
    requires PartsOk(ps) && |r| == Length(ps) && NoneEmpty(r)
    ensures |res| == PartsCount(ps) && NoneEmpty(res)
    decreases ps
  {
    var here := UnionEach(r[0], PartOpts(ps.part));
    assert NoneEmpty(here) by { assert r[0] != {}; }
    if ps.One? then here else here + Joined(r[1..], ps.rest)
  }

  ghost function ChainOpts(r: Opts, c: Chain): (res: Opts)
    requires |r| > 0 && NoneEmpty(r) && ChainOk(|r|, c)
    ensures |res| == ChainCount(|r|, c) && NoneEmpty(res)
    decreases c
  {
    if c.EndChain? then r else ChainOpts(Joined(r, c.parts), c.rest)
  }

  ghost function BranchOpts(b: Branch): (r: Opts)
    requires BranchOk(b)
    ensures |r| == BranchCount(b) && NoneEmpty(r)
  {
    ChainOpts(PartOpts(b.part), b.chain)
  }

  ghost function BranchesOpts(bs: Branches): (r: Opts)
    requires BranchesOk(bs)
    ensures |r| == BranchesCount(bs) && NoneEmpty(r)
  {
    if bs.NoBranches? then [] else BranchOpts(bs.branch) + BranchesOpts(bs.rest)
  }

  ghost function ReadingOpts(e: Reading): (r: Opts)
    requires ReadingOk(e)
    ensures |r| == ReadingCount(e) && NoneEmpty(r)
  {
    BranchOpts(e.branch) + BranchesOpts(e.branches)
  }

  // ---- the tree a token list is read as

  datatype Got<T> = Fails | Got(tree: T, next: nat)

  ghost predicate Advances<T>(toks: seq<string>, pos: nat, g: Got<T>) {
    g.Got? ==> pos < g.next <= |toks|
  }

  ghost function PartAt(toks: seq<string>, pos: nat): (g: Got<Part>)
    ensures Advances(toks, pos, g)
    decreases |toks| - pos, 0
  {
    if pos >= |toks| then Fails
    else if toks[pos] == "(" then
      var e := ReadingAt(toks, pos + 1);
      if e.Fails? || e.next >= |toks| || toks[e.next] != ")" then Fails else Got(Nested(e.tree), e.next + 1)
    else if !IsWord(toks[pos]) then Fails
    else if pos + 1 < |toks| && IsWith(toks[pos + 1]) then
      if pos + 2 >= |toks| then Fails else Got(Excepted(toks[pos], toks[pos + 1], toks[pos + 2]), pos + 3)
    else Got(Name(toks[pos]), pos + 1)
  }

  ghost function PartsAt(toks: seq<string>, n: nat, pos: nat): (g: Got<Parts>)
    requires n > 0
    ensures Advances(toks, pos, g)
    decreases |toks| - pos, 1
  {
    var first := PartAt(toks, pos);
    if first.Fails? then Fails
    else if n == 1 then Got(One(first.tree), first.next)
    else
      var rest := PartsAt(toks, n - 1, first.next);
      if rest.Fails? then Fails else Got(More(first.tree, rest.tree), rest.next)
  }

  ghost function ChainAt(toks: seq<string>, n: nat, pos: nat): (g: Got<Chain>)
    requires n > 0 && 0 < pos <= |toks|
    ensures g.Got? ==> pos <= g.next <= |toks|
    decreases |toks| - pos, 2
  {
    if pos >= |toks| || !IsAnd(toks[pos]) then Got(EndChain, pos)
    else
      var ps := PartsAt(toks, n, pos + 1);
      if ps.Fails? then Fails
      else
        var rest := ChainAt(toks, PartsCount(ps.tree), ps.next);
        if rest.Fails? then Fails else Got(AndThen(toks[pos], ps.tree, rest.tree), rest.next)
  }

  ghost function BranchAt(toks: seq<string>, pos: nat): (g: Got<Branch>)
    ensures Advances(toks, pos, g)
    decreases |toks| - pos, 3
  {
    var p := PartAt(toks, pos);
    if p.Fails? then Fails
    else
      var c := ChainAt(toks, PartCount(p.tree), p.next);
      if c.Fails? then Fails else Got(Branch(p.tree, c.tree), c.next)
  }

  ghost function BranchesAt(toks: seq<string>, pos: nat): (g: Got<Branches>)
    requires 0 < pos <= |toks|
    ensures g.Got? ==> pos <= g.next <= |toks|
    decreases |toks| - pos, 4
  {
    if pos >= |toks| || !IsOr(toks[pos]) then Got(NoBranches, pos)
    else
      var b := BranchAt(toks, pos + 1);
      if b.Fails? then Fails
      else
        var rest := BranchesAt(toks, b.next);
        if rest.Fails? then Fails else Got(OrElse(toks[pos], b.tree, rest.tree), rest.next)
  }

  ghost function ReadingAt(toks: seq<string>, pos: nat): (g: Got<Reading>)
    ensures Advances(toks, pos, g)
    decreases |toks| - pos, 5
  {
    var b := BranchAt(toks, pos);
    if b.Fails? then Fails
    else
      var bs := BranchesAt(toks, b.next);
      if bs.Fails? then Fails else Got(Reading(b.tree, bs.tree), bs.next)
  }

  // ---- what the parser returns is the options of that tree, which has those tokens

  lemma Cut(toks: seq<string>, a: nat, b: nat, c: nat)
    requires a <= b <= c <= |toks|
    ensures toks[a..c] == toks[a..b] + toks[b..c]
  {
  }

  lemma {:induction false} PartAgrees(toks: seq<string>, pos: nat)
    ensures match PartAt(toks, pos)
            case Fails => Atom(toks, pos) == None
            case Got(p, next) => PartOk(p) && PartToks(p) == toks[pos..next] && Atom(toks, pos) == Some((PartOpts(p), next))
    decreases |toks| - pos, 0
  {
    hide ReadingAt, Alt, ReadingOk, ReadingToks, ReadingOpts, IsWord, IsWith;
    if pos < |toks| && toks[pos] == "(" {
      ReadingAgrees(toks, pos + 1);
      var e := ReadingAt(toks, pos + 1);
      if e.Got? && e.next < |toks| && toks[e.next] == ")" {
        assert toks[pos..e.next + 1] == ["("] + toks[pos + 1..e.next] + [")"];
      }
    }
  }

  lemma {:induction false} PartsAgree(toks: seq<string>, r: Opts, pos: nat)
    requires r != [] && NoneEmpty(r)
    ensures match PartsAt(toks, |r|, pos)
            case Fails => Distribute(toks, r, pos) == None
            case Got(ps, next) =>
              && PartsOk(ps) && Length(ps) == |r| && PartsToks(ps) == toks[pos..next]
              && Distribute(toks, r, pos) == Some((Joined(r, ps), next))
    decreases |toks| - pos, 1
  {
    hide PartAt, Atom, PartOk, PartToks, PartOpts, PartCount;
    PartAgrees(toks, pos);
    var first := PartAt(toks, pos);
    if first.Got? && |r| > 1 {
      PartsAgree(toks, r[1..], first.next);
      var rest := PartsAt(toks, |r| - 1, first.next);
      if rest.Got? { Cut(toks, pos, first.next, rest.next); }
    }
  }

  lemma {:induction false} ChainAgrees(toks: seq<string>, r: Opts, pos: nat)
    requires r != [] && NoneEmpty(r) && 0 < pos <= |toks|
    ensures match ChainAt(toks, |r|, pos)
            case Fails => ConjTail(toks, r, pos) == None
            case Got(c, next) =>
              && ChainOk(|r|, c) && ChainToks(c) == toks[pos..next]
              && ConjTail(toks, r, pos) == Some((ChainOpts(r, c), next))
    decreases |toks| - pos, 2
  {
    hide PartsAt, Distribute, PartsOk, PartsToks, Joined, PartsCount, Length, IsAnd;
    if pos < |toks| && IsAnd(toks[pos]) {
      PartsAgree(toks, r, pos + 1);
      var ps := PartsAt(toks, |r|, pos + 1);
      if ps.Got? {
        ChainAgrees(toks, Joined(r, ps.tree), ps.next);
        var rest := ChainAt(toks, PartsCount(ps.tree), ps.next);
        if rest.Got? {
          Cut(toks, pos, pos + 1, rest.next);
          Cut(toks, pos + 1, ps.next, rest.next);
          assert [toks[pos]] + toks[pos + 1..ps.next] + toks[ps.next..rest.next] == toks[pos..rest.next];
        }
      }
    }
  }

  lemma {:induction false} BranchAgrees(toks: seq<string>, pos: nat)
    ensures match BranchAt(toks, pos)
            case Fails => Conj(toks, pos) == None
            case Got(b, next) => BranchOk(b) && BranchToks(b) == toks[pos..next] && Conj(toks, pos) == Some((BranchOpts(b), next))
    decreases |toks| - pos, 3
  {
    hide PartAt, Atom, PartOk, PartToks, PartOpts, PartCount, ChainAt, ConjTail, ChainOk, ChainToks, ChainOpts;
    PartAgrees(toks, pos);
    var p := PartAt(toks, pos);
    if p.Got? {
      ChainAgrees(toks, PartOpts(p.tree), p.next);
      var c := ChainAt(toks, PartCount(p.tree), p.next);
      if c.Got? { Cut(toks, pos, p.next, c.next); }
    }
  }

  lemma {:induction false} BranchesAgree(toks: seq<string>, r: Opts, pos: nat)
    requires r != [] && 0 < pos <= |toks|
    ensures match BranchesAt(toks, pos)
            case Fails => AltTail(toks, r, pos) == None
            case Got(bs, next) =>
              && BranchesOk(bs) && BranchesToks(bs) == toks[pos..next]
              && AltTail(toks, r, pos) == Some((r + BranchesOpts(bs), next))
    decreases |toks| - pos, 4
  {
    hide BranchAt, Conj, BranchOk, BranchToks, BranchOpts, BranchCount, IsOr;
    if pos < |toks| && IsOr(toks[pos]) {
      BranchAgrees(toks, pos + 1);
      var b := BranchAt(toks, pos + 1);
      if b.Got? {
        BranchesAgree(toks, r + BranchOpts(b.tree), b.next);
        var rest := BranchesAt(toks, b.next);
        if rest.Got? {
          Cut(toks, pos, pos + 1, rest.next);
          Cut(toks, pos + 1, b.next, rest.next);
          assert [toks[pos]] + toks[pos + 1..b.next] + toks[b.next..rest.next] == toks[pos..rest.next];
          assert r + BranchOpts(b.tree) + BranchesOpts(rest.tree) == r + (BranchOpts(b.tree) + BranchesOpts(rest.tree));
        }
      }
    } else {
      assert r + [] == r;
    }
  }

  lemma {:induction false} ReadingAgrees(toks: seq<string>, pos: nat)
    ensures match ReadingAt(toks, pos)
            case Fails => Alt(toks, pos) == None
            case Got(e, next) => ReadingOk(e) && ReadingToks(e) == toks[pos..next] && Alt(toks, pos) == Some((ReadingOpts(e), next))
    decreases |toks| - pos, 5
  {
    hide BranchAt, Conj, BranchOk, BranchToks, BranchOpts, BranchCount, BranchesAt, AltTail, BranchesOk, BranchesToks, BranchesOpts;
    BranchAgrees(toks, pos);
    var b := BranchAt(toks, pos);
    if b.Got? {
      BranchesAgree(toks, BranchOpts(b.tree), b.next);
      var bs := BranchesAt(toks, b.next);
      if bs.Got? { Cut(toks, pos, b.next, bs.next); }
    }
  }

  // ---- every tree of the grammar is read back from its tokens

  /** The next token, if any, is not WITH. */
  ghost predicate NoWith(toks: seq<string>, pos: nat) {
    pos >= |toks| || !IsWith(toks[pos])
  }

  ghost predicate NoAnd(toks: seq<string>, pos: nat) {
    NoWith(toks, pos) && (pos >= |toks| || !IsAnd(toks[pos]))
  }

  ghost predicate NoOr(toks: seq<string>, pos: nat) {
    NoAnd(toks, pos) && (pos >= |toks| || !IsOr(toks[pos]))
  }

  lemma Starts(toks: seq<string>, pos: nat, ts: seq<string>)
    requires At(toks, pos, ts) && ts != []
    ensures pos < |toks| && toks[pos] == ts[0]
  {
    assert toks[pos..pos + |ts|][0] == ts[0];
  }

  lemma {:induction false} PartStart(p: Part)
    requires PartOk(p)
    ensures PartToks(p)[0] == "(" || IsWord(PartToks(p)[0])
  {
    hide ReadingOk, ReadingToks, IsWord;
  }

  lemma {:induction false} PartsStart(ps: Parts)
    requires PartsOk(ps)
    ensures PartsToks(ps)[0] == "(" || IsWord(PartsToks(ps)[0])
  {
    hide PartOk, PartToks, IsWord;
    PartStart(ps.part);
  }

  lemma Signs()
    ensures !IsWith("(") && !IsAnd("(") && !IsOr("(") && !IsWith(")") && !IsAnd(")") && !IsOr(")")
    ensures forall t :: IsWord(t) ==> !IsWith(t) && t != "("
    ensures forall t :: IsAnd(t) ==> !IsWith(t) && !IsOr(t)
    ensures forall t :: IsOr(t) ==> !IsWith(t) && !IsAnd(t)
  {
    assert Upper("(")[0] == '(' && Upper(")")[0] == ')' && Upper("/")[0] == '/';
  }

  lemma {:induction false} PartReads(toks: seq<string>, pos: nat, p: Part)
    requires PartOk(p) && At(toks, pos, PartToks(p)) && NoWith(toks, pos + |PartToks(p)|)
    ensures PartAt(toks, pos) == Got(p, pos + |PartToks(p)|)
    decreases p
  {
    Signs();
    hide IsWord, IsWith, IsAnd, IsOr, ReadingAt, ReadingOk, ReadingToks;
    Starts(toks, pos, PartToks(p));
    match p
    case Name(id) =>
    case Excepted(id, op, tail) =>
      var ts := toks[pos..pos + 3];
      assert toks[pos + 1] == ts[1] && toks[pos + 2] == ts[2];
    case Nested(e) =>
      AtSplit(toks, pos, ["("] + ReadingToks(e), [")"]);
      AtSplit(toks, pos, ["("], ReadingToks(e));
      Starts(toks, pos + 1 + |ReadingToks(e)|, [")"]);
      ReadingReads(toks, pos + 1, e);
  }

  lemma {:induction false} PartsRead(toks: seq<string>, pos: nat, ps: Parts)
    requires PartsOk(ps) && At(toks, pos, PartsToks(ps)) && NoWith(toks, pos + |PartsToks(ps)|)
    ensures PartsAt(toks, Length(ps), pos) == Got(ps, pos + |PartsToks(ps)|)
    decreases ps
  {
    hide PartAt, PartOk, PartToks, IsWith, IsWord;
    if ps.One? {
      PartReads(toks, pos, ps.part);
    } else {
      var ts := PartToks(ps.part);
      AtSplit(toks, pos, ts, PartsToks(ps.rest));
      Starts(toks, pos + |ts|, PartsToks(ps.rest));
      PartsStart(ps.rest);
      Signs();
      PartReads(toks, pos, ps.part);
      PartsRead(toks, pos + |ts|, ps.rest);
      SomeLength(ps.rest);
    }
  }

  lemma {:induction false} SomeLength(ps: Parts)
    ensures Length(ps) > 0
  {
  }

  lemma {:induction false} ChainStart(toks: seq<string>, pos: nat, c: Chain, n: nat)
    requires ChainOk(n, c) && At(toks, pos, ChainToks(c)) && NoAnd(toks, pos + |ChainToks(c)|)
    ensures NoWith(toks, pos)
  {
    hide PartsToks, IsWith, IsAnd, PartsOk, PartsCount, Length;
    Signs();
    if c.AndThen? { Starts(toks, pos, ChainToks(c)); }
  }

  lemma {:induction false} ChainReads(toks: seq<string>, n: nat, pos: nat, c: Chain)
    requires n > 0 && 0 < pos && ChainOk(n, c) && At(toks, pos, ChainToks(c)) && NoAnd(toks, pos + |ChainToks(c)|)
    ensures ChainAt(toks, n, pos) == Got(c, pos + |ChainToks(c)|)
    decreases c
  {
    hide PartsAt, PartsOk, PartsToks, PartsCount, Length, IsAnd, IsWith;
    if c.AndThen? {
      var ts := PartsToks(c.parts);
      AtSplit(toks, pos, [c.op] + ts, ChainToks(c.rest));
      AtSplit(toks, pos, [c.op], ts);
      Starts(toks, pos, [c.op]);
      ChainStart(toks, pos + 1 + |ts|, c.rest, PartsCount(c.parts));
      PartsRead(toks, pos + 1, c.parts);
      ChainReads(toks, PartsCount(c.parts), pos + 1 + |ts|, c.rest);
    }
  }

  lemma {:induction false} BranchReads(toks: seq<string>, pos: nat, b: Branch)
    requires BranchOk(b) && At(toks, pos, BranchToks(b)) && NoAnd(toks, pos + |BranchToks(b)|)
    ensures BranchAt(toks, pos) == Got(b, pos + |BranchToks(b)|)
    decreases b
  {
    hide PartAt, PartOk, PartToks, PartCount, ChainAt, ChainOk, ChainToks, NoWith, NoAnd;
    var ts := PartToks(b.part);
    AtSplit(toks, pos, ts, ChainToks(b.chain));
    ChainStart(toks, pos + |ts|, b.chain, PartCount(b.part));
    PartReads(toks, pos, b.part);
    ChainReads(toks, PartCount(b.part), pos + |ts|, b.chain);
  }

  lemma {:induction false} BranchesStart(toks: seq<string>, pos: nat, bs: Branches)
    requires BranchesOk(bs) && At(toks, pos, BranchesToks(bs)) && NoOr(toks, pos + |BranchesToks(bs)|)
    ensures NoAnd(toks, pos)
  {
    hide BranchToks, BranchOk, IsWith, IsAnd, IsOr;
    Signs();
    if bs.OrElse? { Starts(toks, pos, BranchesToks(bs)); }
  }

  lemma {:induction false} BranchesRead(toks: seq<string>, pos: nat, bs: Branches)
    requires 0 < pos && BranchesOk(bs) && At(toks, pos, BranchesToks(bs)) && NoOr(toks, pos + |BranchesToks(bs)|)
    ensures BranchesAt(toks, pos) == Got(bs, pos + |BranchesToks(bs)|)
    decreases bs
  {
    hide BranchAt, BranchOk, BranchToks, IsAnd, IsOr, IsWith;
    if bs.OrElse? {
      var ts := BranchToks(bs.branch);
      AtSplit(toks, pos, [bs.op] + ts, BranchesToks(bs.rest));
      AtSplit(toks, pos, [bs.op], ts);
      Starts(toks, pos, [bs.op]);
      BranchesStart(toks, pos + 1 + |ts|, bs.rest);
      BranchReads(toks, pos + 1, bs.branch);
      BranchesRead(toks, pos + 1 + |ts|, bs.rest);
    }
  }

  lemma {:induction false} ReadingReads(toks: seq<string>, pos: nat, e: Reading)
    requires ReadingOk(e) && At(toks, pos, ReadingToks(e)) && NoOr(toks, pos + |ReadingToks(e)|)
    ensures ReadingAt(toks, pos) == Got(e, pos + |ReadingToks(e)|)
    decreases e
  {
    hide BranchAt, BranchOk, BranchToks, BranchesAt, BranchesOk, BranchesToks, NoAnd, NoOr;
    var ts := BranchToks(e.branch);
    AtSplit(toks, pos, ts, BranchesToks(e.branches));
    BranchesStart(toks, pos + |ts|, e.branches);
    BranchReads(toks, pos, e.branch);
    BranchesRead(toks, pos + |ts|, e.branches);
  }

  // ---- which token lists are accepted

  /** `toks` is written by the tree. */
  ghost predicate Writes(e: Reading, toks: seq<string>) {
    ReadingOk(e) && ReadingToks(e) == toks
  }

  lemma {:induction false} WritesReads(e: Reading, toks: seq<string>)
    requires Writes(e, toks)
    ensures ReadingAt(toks, 0) == Got(e, |toks|)
  {
    hide ReadingAt, ReadingOk, ReadingToks;
    assert toks[0..|toks|] == toks;
    ReadingReads(toks, 0, e);
  }

  /** `options` accepts a token list exactly when some tree of the reader's grammar writes it; there is only
      one, and its options are returned. */
  lemma AcceptedExactly(toks: seq<string>)
    ensures Options(toks).Some? <==> exists e :: Writes(e, toks)
    ensures forall e :: Writes(e, toks) ==> Options(toks) == Some(ReadingOpts(e))
    ensures forall e, e' :: Writes(e, toks) && Writes(e', toks) ==> e == e'
  {
    hide ReadingAt, ReadingOk, ReadingToks, ReadingOpts, Alt;
    ReadingAgrees(toks, 0);
    assert toks[0..|toks|] == toks;
    if Options(toks).Some? {
      assert Writes(ReadingAt(toks, 0).tree, toks);
    }
    forall e | Writes(e, toks)
      ensures ReadingAt(toks, 0) == Got(e, |toks|)
    {
      WritesReads(e, toks);
    }
  }

  /** `notice_only` accepts a token list exactly when the tree that writes it has an option made only of
      notice-only ids. */
  lemma NoticeOnlyOfTokens(toks: seq<string>)
    ensures NoticeOnly(toks) <==> exists e :: Writes(e, toks) && Satisfies(ReadingOpts(e), NOTICE_ONLY)
  {
    hide ReadingOk, ReadingToks, Options;
    AcceptedExactly(toks);
    forall e | Writes(e, toks)
      ensures NoticeOnly(toks) <==> Satisfies(ReadingOpts(e), NOTICE_ONLY)
    {
      assert NoneEmpty(ReadingOpts(e));
    }
  }

  // ---- which accepted token lists are SPDX expressions

  /** Every AND takes one operand and every WITH is followed by a word. */
  ghost predicate PartPlain(p: Part) {
    match p
    case Name(id) => true
    case Excepted(id, op, tail) => IsWord(tail)
    case Nested(e) => Plain(e)
  }

  ghost predicate ChainPlain(c: Chain) {
    c.AndThen? ==> c.parts.One? && PartPlain(c.parts.part) && ChainPlain(c.rest)
  }

  ghost predicate BranchPlain(b: Branch) { PartPlain(b.part) && ChainPlain(b.chain) }

  ghost predicate BranchesPlain(bs: Branches) { bs.OrElse? ==> BranchPlain(bs.branch) && BranchesPlain(bs.rest) }

  ghost predicate Plain(e: Reading) { BranchPlain(e.branch) && BranchesPlain(e.branches) }

  /** A plain tree as the expression it is. */
  ghost function PartExpr(p: Part): Operand {
    match p
    case Name(id) => Word(id)
    case Excepted(id, op, tail) => Exception(id, op, tail)
    case Nested(e) => Group(ExprOf(e))
  }

  ghost function ChainExpr(c: Chain): Ands {
    if c.EndChain? then NoAnds else And(c.op, PartExpr(c.parts.part), ChainExpr(c.rest))
  }

  ghost function BranchExpr(b: Branch): Term { Term(PartExpr(b.part), ChainExpr(b.chain)) }

  ghost function BranchesExpr(bs: Branches): Ors {
    if bs.NoBranches? then NoOrs else Or(bs.op, BranchExpr(bs.branch), BranchesExpr(bs.rest))
  }

  ghost function ExprOf(e: Reading): Expr { Expr(BranchExpr(e.branch), BranchesExpr(e.branches)) }

  lemma {:induction false} PartIsExpr(p: Part)
    requires PartOk(p) && PartPlain(p)
    ensures OperandOk(PartExpr(p)) && OperandToks(PartExpr(p)) == PartToks(p)
  {
    if p.Nested? { PlainIsExpr(p.e); }
  }

  lemma {:induction false} ChainIsExpr(n: nat, c: Chain)
    requires ChainOk(n, c) && ChainPlain(c)
    ensures AndsOk(ChainExpr(c)) && AndsToks(ChainExpr(c)) == ChainToks(c)
    decreases c
  {
    if c.AndThen? {
      PartIsExpr(c.parts.part);
      ChainIsExpr(PartsCount(c.parts), c.rest);
    }
  }

  lemma {:induction false} BranchIsExpr(b: Branch)
    requires BranchOk(b) && BranchPlain(b)
    ensures TermOk(BranchExpr(b)) && TermToks(BranchExpr(b)) == BranchToks(b)
  {
    PartIsExpr(b.part);
    ChainIsExpr(PartCount(b.part), b.chain);
  }

  lemma {:induction false} BranchesAreExpr(bs: Branches)
    requires BranchesOk(bs) && BranchesPlain(bs)
    ensures OrsOk(BranchesExpr(bs)) && OrsToks(BranchesExpr(bs)) == BranchesToks(bs)
  {
    if bs.OrElse? {
      BranchIsExpr(bs.branch);
      BranchesAreExpr(bs.rest);
    }
  }

  lemma {:induction false} PlainIsExpr(e: Reading)
    requires ReadingOk(e) && Plain(e)
    ensures ExprOk(ExprOf(e)) && ExprToks(ExprOf(e)) == ReadingToks(e)
  {
    BranchIsExpr(e.branch);
    BranchesAreExpr(e.branches);
  }

  /** An expression as a plain tree. */
  ghost function OperandPart(a: Operand): Part {
    match a
    case Word(id) => Name(id)
    case Exception(id, op, exception) => Excepted(id, op, exception)
    case Group(e) => Nested(ReadingOf(e))
  }

  ghost function AndsChain(c: Ands): Chain {
    if c.NoAnds? then EndChain else AndThen(c.op, One(OperandPart(c.operand)), AndsChain(c.rest))
  }

  ghost function TermBranch(t: Term): Branch { Branch(OperandPart(t.operand), AndsChain(t.ands)) }

  ghost function OrsBranches(o: Ors): Branches {
    if o.NoOrs? then NoBranches else OrElse(o.op, TermBranch(o.term), OrsBranches(o.rest))
  }

  ghost function ReadingOf(e: Expr): Reading { Reading(TermBranch(e.term), OrsBranches(e.ors)) }

  lemma {:induction false} OperandIsPart(a: Operand)
    requires OperandOk(a) && OperandLastOnly(a)
    ensures var p := OperandPart(a);
            PartOk(p) && PartPlain(p) && PartToks(p) == OperandToks(a) && (PartCount(p) == 1 <==> !OperandHasOr(a))
  {
    if a.Group? { ExprIsReading(a.e); }
  }

  lemma {:induction false} AndsAreChain(n: nat, c: Ands)
    requires n > 0 && AndsOk(c) && AndsLastOnly(c) && (c.And? ==> n == 1)
    ensures ChainOk(n, AndsChain(c)) && ChainPlain(AndsChain(c)) && ChainToks(AndsChain(c)) == AndsToks(c)
    ensures ChainCount(n, AndsChain(c)) == 1 <==> n == 1 && !AndsHaveOr(c)
    decreases c
  {
    if c.And? {
      OperandIsPart(c.operand);
      AndsAreChain(PartCount(OperandPart(c.operand)), c.rest);
    }
  }

  lemma {:induction false} TermIsBranch(t: Term)
    requires TermOk(t) && TermLastOnly(t)
    ensures var b := TermBranch(t);
      && BranchOk(b) && BranchPlain(b) && BranchToks(b) == TermToks(t)
      && (BranchCount(b) == 1 <==> !OperandHasOr(t.operand) && !AndsHaveOr(t.ands))
  {
    OperandIsPart(t.operand);
    AndsAreChain(PartCount(OperandPart(t.operand)), t.ands);
  }

  lemma {:induction false} OrsAreBranches(o: Ors)
    requires OrsOk(o) && OrsLastOnly(o)
    ensures var bs := OrsBranches(o);
      && BranchesOk(bs) && BranchesPlain(bs) && BranchesToks(bs) == OrsToks(o) && (BranchesCount(bs) == 0 <==> o.NoOrs?)
  {
    if o.Or? {
      TermIsBranch(o.term);
      OrsAreBranches(o.rest);
    }
  }

  lemma {:induction false} ExprIsReading(e: Expr)
    requires ExprOk(e) && LastOnly(e)
    ensures var x := ReadingOf(e);
      ReadingOk(x) && Plain(x) && ReadingToks(x) == ExprToks(e) && (ReadingCount(x) == 1 <==> !ExprHasOr(e))
  {
    TermIsBranch(e.term);
    OrsAreBranches(e.ors);
  }

  ghost predicate WellFormed(toks: seq<string>) {
    exists x :: ExprOk(x) && ExprToks(x) == toks
  }

  /** An accepted token list is an SPDX expression's exactly when, in the tree that writes it, every AND takes
      one operand and every WITH is followed by a word. */
  lemma {:induction false} WellFormedExactly(e: Reading, toks: seq<string>)
    requires Writes(e, toks)
    ensures WellFormed(toks) <==> Plain(e)
  {
    hide ReadingOk, ReadingToks, Plain, ExprOk, ExprToks, Options, LastOnly;
    if Plain(e) {
      PlainIsExpr(e);
      assert ExprOk(ExprOf(e)) && ExprToks(ExprOf(e)) == toks;
    }
    if x :| ExprOk(x) && ExprToks(x) == toks {
      AcceptedExactly(toks);
      OptionsMeanExpr(x);
      ExprIsReading(x);
      assert Writes(ReadingOf(x), toks);
    }
  }

  /** The tokens are an expression in the form the reader takes, and the notice-only ids satisfy it. */
  ghost predicate NoticeExpression(toks: seq<string>) {
    exists x :: ExprOk(x) && ExprToks(x) == toks && LastOnly(x) && Holds(x, NOTICE_ONLY)
  }

  /** The tokens are no expression, and are read with an option made only of notice-only ids. */
  ghost predicate NoticeMisread(toks: seq<string>) {
    exists e :: Writes(e, toks) && !Plain(e) && Satisfies(ReadingOpts(e), NOTICE_ONLY)
  }

  /** For every token list: `notice_only` accepts it exactly when it is the one or the other. */
  lemma NoticeOnlyOfAll(toks: seq<string>)
    ensures NoticeOnly(toks) <==> NoticeExpression(toks) || NoticeMisread(toks)
  {
    hide ReadingOk, ReadingToks, Plain, ExprOk, ExprToks, Options, LastOnly, NoticeOnly, Satisfies, Holds;
    NoticeOnlyOfTokens(toks);
    if x :| ExprOk(x) && ExprToks(x) == toks {
      NoticeOnlyExactly(x);
    }
    if NoticeOnly(toks) {
      var e :| Writes(e, toks) && Satisfies(ReadingOpts(e), NOTICE_ONLY);
      WellFormedExactly(e, toks);
    }
    if NoticeExpression(toks) {
      var x :| ExprOk(x) && ExprToks(x) == toks && LastOnly(x) && Holds(x, NOTICE_ONLY);
      NoticeOnlyExactly(x);
    }
  }

  // ---- lists that are accepted and are no expression

  /** A tree of a single operand. */
  ghost function Alone(p: Part): Branch { Branch(p, EndChain) }

  lemma {:induction false} AloneFacts(p: Part)
    requires PartOk(p)
    ensures BranchOk(Alone(p)) && BranchToks(Alone(p)) == PartToks(p) && BranchOpts(Alone(p)) == PartOpts(p)
    ensures BranchPlain(Alone(p)) <==> PartPlain(p)
    ensures BranchCount(Alone(p)) == PartCount(p)
  {
    hide PartOk, PartToks, PartOpts, PartPlain, PartCount;
    assert PartToks(p) + [] == PartToks(p);
  }

  lemma {:induction false} OneBranch(b: Branch)
    requires BranchOk(b)
    ensures var e := Reading(b, NoBranches);
      && ReadingOk(e) && ReadingToks(e) == BranchToks(b) && ReadingOpts(e) == BranchOpts(b) && (Plain(e) <==> BranchPlain(b))
  {
    hide BranchOk, BranchToks, BranchOpts, BranchPlain, BranchCount;
    assert BranchToks(b) + [] == BranchToks(b) && BranchOpts(b) + [] == BranchOpts(b);
  }

  lemma TwoNames(x: string, or: string, y: string)
    requires IsWord(x) && IsOr(or) && IsWord(y)
    ensures var e := Reading(Alone(Name(x)), OrElse(or, Alone(Name(y)), NoBranches));
      ReadingOk(e) && ReadingToks(e) == [x, or, y] && ReadingOpts(e) == [{x}, {y}] && ReadingCount(e) == 2
  {
    AloneFacts(Name(x));
    AloneFacts(Name(y));
    hide IsWord, IsOr, BranchOk, BranchToks, BranchOpts, BranchCount;
    var more := OrElse(or, Alone(Name(y)), NoBranches);
    assert BranchesOk(NoBranches) && BranchesOk(more);
    assert BranchesToks(more) == [or] + [y] + [] == [or, y];
    assert BranchesOpts(more) == [{y}] + [] == [{y}];
    assert [x] + [or, y] == [x, or, y];
  }

  /** With two options on the left the reader takes two operands after one AND, so it accepts every list of
      this shape; none is an expression, and one of the two options can be notice-only. */
  lemma IllFormedAccepted(x: string, or: string, y: string, and: string, u: string, v: string)
    requires IsWord(x) && IsOr(or) && IsWord(y) && IsAnd(and) && IsWord(u) && IsWord(v)
    ensures var toks := ["(", x, or, y, ")", and, u, v];
      && Options(toks) == Some([{x, u}, {y, v}]) && !WellFormed(toks)
      && (x in NOTICE_ONLY && u in NOTICE_ONLY ==> NoticeOnly(toks))
  {
    var toks := ["(", x, or, y, ")", and, u, v];
    var left := Nested(Reading(Alone(Name(x)), OrElse(or, Alone(Name(y)), NoBranches)));
    TwoNames(x, or, y);
    hide IsWord, IsAnd, IsOr, IsWith, ReadingOk, ReadingToks, ReadingOpts, ReadingCount, Options;
    var parts := More(Name(u), One(Name(v)));
    assert PartToks(left) == ["("] + [x, or, y] + [")"] == ["(", x, or, y, ")"];
    assert PartOk(Name(u)) && PartOk(Name(v));
    assert PartsOk(One(Name(v))) && PartsOk(parts);
    assert PartsToks(One(Name(v))) == [v];
    assert PartsToks(parts) == [u] + [v] == [u, v];
    var chain := AndThen(and, parts, EndChain);
    assert ChainToks(chain) == [and] + [u, v] + [] == [and, u, v];
    var b := Branch(left, chain);
    assert Length(One(Name(v))) == 1;
    assert Length(parts) == 2 && ChainOk(PartsCount(parts), EndChain);
    assert ChainOk(2, chain);
    assert BranchToks(b) == ["(", x, or, y, ")"] + [and, u, v] == toks;
    BranchJoins(b, x, y, u, v);
    OneBranch(b);
    var e := Reading(b, NoBranches);
    AcceptedExactly(toks);
    WellFormedExactly(e, toks);
    if x in NOTICE_ONLY && u in NOTICE_ONLY { assert {x, u} in ReadingOpts(e); }
  }

  lemma {:induction false} BranchJoins(b: Branch, x: string, y: string, u: string, v: string)
    requires b.part.Nested? && b.chain.AndThen? && b.chain.parts == More(Name(u), One(Name(v))) && b.chain.rest.EndChain?
    requires BranchOk(b) && PartOpts(b.part) == [{x}, {y}]
    ensures BranchOpts(b) == [{x, u}, {y, v}]
  {
    hide ReadingOk, ReadingOpts, ReadingCount, IsWord, IsAnd;
    var r: Opts := [{x}, {y}];
    assert {x} + {u} == {x, u} && {y} + {v} == {y, v};
    assert UnionEach({x}, [{u}]) == [{x, u}] && UnionEach({y}, [{v}]) == [{y, v}];
    assert r[1..] == [{y}];
    var last := One(Name(v));
    assert PartsOk(b.chain.parts) && b.chain.parts.rest == last;
    assert PartsOk(last) && Length(last) == 1;
    assert Joined([{y}], last) == [{y, v}];
    assert PartOpts(Name(u)) == [{u}] && Joined(r[1..], last) == [{y, v}];
    var both := Joined(r, b.chain.parts);
    assert both == [{x, u}] + [{y, v}];
    assert ChainOpts(both, b.chain.rest) == both;
    assert ChainOpts(r, b.chain) == both;
  }

  /** After WITH any token is taken, an operator or a parenthesis too. */
  lemma AnyAfterWith(id: string, op: string, tail: string)
    requires IsWord(id) && IsWith(op)
    ensures Options([id, op, tail]) == Some([{id + " WITH " + tail}])
    ensures WellFormed([id, op, tail]) <==> IsWord(tail)
  {
    hide IsWord, IsWith, BranchOk, BranchToks, BranchOpts, BranchPlain, Options;
    var p := Excepted(id, op, tail);
    AloneFacts(p);
    OneBranch(Alone(p));
    AcceptedExactly([id, op, tail]);
    WellFormedExactly(Reading(Alone(p), NoBranches), [id, op, tail]);
  }
}
