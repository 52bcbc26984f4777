/** SPDX license expressions: `check_provenance.py`'s parser, fused with its distribution of AND over OR. */
module Spdx {
  import opened Wrappers
  import opened Text

  /** The OR-options of an expression, each the set of ids it needs. */
  type Opts = seq<set<string>>

  // ---- tokens

  predicate IsIdChar(c: char) {
    'A' <= c <= 'Z' || 'a' <= c <= 'z' || '0' <= c <= '9' || c == '.' || c == '+' || c == ':' || c == '-'
  }

  predicate IsPunct(c: char) {
    c == '(' || c == ')' || c == '/'
  }

  /** The length of the run of id characters `s` starts with. */
  function IdLength(s: string): (n: nat)
    ensures n <= |s| && (forall i :: 0 <= i < n ==> IsIdChar(s[i])) && (n < |s| ==> !IsIdChar(s[n]))
  {
    if s != [] && IsIdChar(s[0]) then 1 + IdLength(s[1..]) else 0
  }

  function Prepend(t: seq<string>, ts: Option<seq<string>>): Option<seq<string>> {
    if ts.Some? then Some(t + ts.value) else None
  }

  /** The tokens of `s`; `None` for a character no token starts with. */
  function Tokens(s: string): Option<seq<string>>
    decreases |s|
  {
    if s == [] then Some([])
    else if IsSpace(s[0]) then Tokens(s[1..])
    else if IsPunct(s[0]) then Prepend([s[..1]], Tokens(s[1..]))
    else if IsIdChar(s[0]) then Prepend([s[..IdLength(s)]], Tokens(s[IdLength(s)..]))
    else None
  }

  predicate IsAnd(t: string) { Upper(t) == "AND" }
  predicate IsOr(t: string) { Upper(t) == "OR" || t == "/" }
  predicate IsWith(t: string) { Upper(t) == "WITH" }

  /** A token that can be an id. */
  predicate IsWord(t: string) {
    t != "(" && t != ")" && t != "/" && Upper(t) != "AND" && Upper(t) != "OR" && Upper(t) != "WITH"
  }

  // ---- the parser, as functions of the position; `None` is a ValueError

  type Parsed = Option<(Opts, nat)>

  predicate Fits(toks: seq<string>, pos: nat, r: Parsed) {
    r.Some? ==> pos < r.value.1 <= |toks| && r.value.0 != []
  }

  function Atom(toks: seq<string>, pos: nat): (r: Parsed)
    ensures Fits(toks, pos, r)
    decreases |toks| - pos, 0
  {
    if pos >= |toks| then None
    else if toks[pos] == "(" then
      var inner := Alt(toks, pos + 1);
      if inner.None? || inner.value.1 >= |toks| || toks[inner.value.1] != ")" then None
      else Some((inner.value.0, inner.value.1 + 1))
    else if !IsWord(toks[pos]) then None
    else if pos + 1 < |toks| && IsWith(toks[pos + 1]) then
      if pos + 2 >= |toks| then None
      else Some(([{toks[pos] + " WITH " + toks[pos + 2]}], pos + 3))
    else Some(([{toks[pos]}], pos + 1))
  }

  /** `[a | b for a in r for b in atom()]`: one call of `atom` for each option on the left. */
  function Distribute(toks: seq<string>, r: Opts, pos: nat): (res: Parsed)
    requires r != []
    ensures Fits(toks, pos, res)
    decreases |toks| - pos, 1
  {
    var first := Atom(toks, pos);
    if first.None? then None else
    var opts := UnionEach(r[0], first.value.0);
    if |r| == 1 then Some((opts, first.value.1)) else
    var rest := Distribute(toks, r[1..], first.value.1);
    if rest.None? then None else Some((opts + rest.value.0, rest.value.1))
  }

  /** `[a | b for b in bs]`. */
  function UnionEach(a: set<string>, bs: Opts): (r: Opts)
    ensures |r| == |bs| && forall i :: 0 <= i < |bs| ==> r[i] == a + bs[i]
  {
    seq(|bs|, i requires 0 <= i < |bs| => a + bs[i])
  }

  function ConjTail(toks: seq<string>, r: Opts, pos: nat): (res: Parsed)
    requires r != [] && 0 < pos <= |toks|
    ensures res.Some? ==> pos <= res.value.1 <= |toks| && res.value.0 != []
    decreases |toks| - pos, 2
  {
    if pos >= |toks| || !IsAnd(toks[pos]) then Some((r, pos)) else
    var next := Distribute(toks, r, pos + 1);
    if next.None? then None else ConjTail(toks, next.value.0, next.value.1)
  }

  function Conj(toks: seq<string>, pos: nat): (r: Parsed)
    ensures Fits(toks, pos, r)
    decreases |toks| - pos, 3
  {
    var first := Atom(toks, pos);
    if first.None? then None else ConjTail(toks, first.value.0, first.value.1)
  }

  function AltTail(toks: seq<string>, r: Opts, pos: nat): (res: Parsed)
    requires r != [] && 0 < pos <= |toks|
    ensures res.Some? ==> pos <= res.value.1 <= |toks| && res.value.0 != []
    decreases |toks| - pos, 4
  {
    if pos >= |toks| || !IsOr(toks[pos]) then Some((r, pos)) else
    var next := Conj(toks, pos + 1);
    if next.None? then None else AltTail(toks, r + next.value.0, next.value.1)
  }

  function Alt(toks: seq<string>, pos: nat): (r: Parsed)
    ensures Fits(toks, pos, r)
    decreases |toks| - pos, 5
  {
    var first := Conj(toks, pos);
    if first.None? then None else AltTail(toks, first.value.0, first.value.1)
  }

  /** `options` of a token list. */
  function Options(toks: seq<string>): Option<Opts> {
    var r := Alt(toks, 0);
    if r.None? || r.value.1 != |toks| then None else Some(r.value.0)
  }

  // ---- well-formed expressions: WITH binds closest, then AND, then OR

  datatype Operand = Word(id: string) | Exception(id: string, op: string, exception: string) | Group(e: Expr)
  datatype Ands = NoAnds | And(op: string, operand: Operand, rest: Ands)
  datatype Term = Term(operand: Operand, ands: Ands)
  datatype Ors = NoOrs | Or(op: string, term: Term, rest: Ors)
  datatype Expr = Expr(term: Term, ors: Ors)

  ghost predicate OperandOk(a: Operand) {
    match a
    case Word(id) => IsWord(id)
    case Exception(id, op, exception) => IsWord(id) && IsWith(op) && IsWord(exception)
    case Group(e) => ExprOk(e)
  }

  ghost predicate AndsOk(c: Ands) {
    c.And? ==> IsAnd(c.op) && OperandOk(c.operand) && AndsOk(c.rest)
  }

  ghost predicate TermOk(t: Term) { OperandOk(t.operand) && AndsOk(t.ands) }

  ghost predicate OrsOk(o: Ors) {
    o.Or? ==> IsOr(o.op) && TermOk(o.term) && OrsOk(o.rest)
  }

  ghost predicate ExprOk(e: Expr) { TermOk(e.term) && OrsOk(e.ors) }

  /** The tokens an expression is written with. */
  ghost function OperandToks(a: Operand): (ts: seq<string>)
    ensures |ts| > 0
  {
    match a
    case Word(id) => [id]
    case Exception(id, op, exception) => [id, op, exception]
    case Group(e) => ["("] + ExprToks(e) + [")"]
  }

  ghost function AndsToks(c: Ands): seq<string> {
    match c
    case NoAnds => []
    case And(op, operand, rest) => [op] + OperandToks(operand) + AndsToks(rest)
  }

  ghost function TermToks(t: Term): seq<string> { OperandToks(t.operand) + AndsToks(t.ands) }

  ghost function OrsToks(o: Ors): seq<string> {
    match o
    case NoOrs => []
    case Or(op, term, rest) => [op] + TermToks(term) + OrsToks(rest)
  }

  ghost function ExprToks(e: Expr): seq<string> { TermToks(e.term) + OrsToks(e.ors) }

  /** Whether `ids` satisfy the expression. */
  ghost predicate OperandHolds(a: Operand, ids: set<string>) {
    match a
    case Word(id) => id in ids
    case Exception(id, op, exception) => id + " WITH " + exception in ids
    case Group(e) => Holds(e, ids)
  }

  ghost predicate AndsHold(c: Ands, ids: set<string>) {
    c.And? ==> OperandHolds(c.operand, ids) && AndsHold(c.rest, ids)
  }

  ghost predicate TermHolds(t: Term, ids: set<string>) { OperandHolds(t.operand, ids) && AndsHold(t.ands, ids) }

  ghost predicate OrsHold(o: Ors, ids: set<string>) {
    o.Or? && (TermHolds(o.term, ids) || OrsHold(o.rest, ids))
  }

  ghost predicate Holds(e: Expr, ids: set<string>) { TermHolds(e.term, ids) || OrsHold(e.ors, ids) }

  /** Whether `ids` contain some option. */
  ghost predicate Satisfies(opts: Opts, ids: set<string>) {
    exists o :: o in opts && o <= ids
  }

  /** An operand with alternatives: an OR somewhere inside. */
  ghost predicate OperandHasOr(a: Operand) { a.Group? && ExprHasOr(a.e) }
  ghost predicate AndsHaveOr(c: Ands) { c.And? && (OperandHasOr(c.operand) || AndsHaveOr(c.rest)) }
  ghost predicate ExprHasOr(e: Expr) {
    e.ors.Or? || OperandHasOr(e.term.operand) || AndsHaveOr(e.term.ands)
  }

  /** In every AND chain, only the last operand has alternatives. */
  ghost predicate OperandLastOnly(a: Operand) { a.Group? ==> LastOnly(a.e) }

  ghost predicate AndsLastOnly(c: Ands) {
    c.And? ==> OperandLastOnly(c.operand) && (c.rest.And? ==> !OperandHasOr(c.operand)) && AndsLastOnly(c.rest)
  }

  ghost predicate TermLastOnly(t: Term) {
    OperandLastOnly(t.operand) && (t.ands.And? ==> !OperandHasOr(t.operand)) && AndsLastOnly(t.ands)
  }

  ghost predicate OrsLastOnly(o: Ors) { o.Or? ==> TermLastOnly(o.term) && OrsLastOnly(o.rest) }

  ghost predicate LastOnly(e: Expr) { TermLastOnly(e.term) && OrsLastOnly(e.ors) }

  // ---- the options of an expression whose parse returns

  /** No option is empty. */
  ghost predicate NoneEmpty(opts: Opts) {
    forall i :: 0 <= i < |opts| ==> opts[i] != {}
  }

  ghost function OperandOpts(a: Operand): (r: Opts)
    ensures r != [] && NoneEmpty(r)
  {
    match a
    case Word(id) => [{id}]
    case Exception(id, op, exception) => [{id + " WITH " + exception}]
    case Group(e) => ExprOpts(e)
  }

  /** The options of a chain on from `r`; meaningful while `r` is one option. */
  ghost function AndsOpts(r: Opts, c: Ands): (res: Opts)
    requires r != [] && NoneEmpty(r)
    ensures res != [] && NoneEmpty(res)
    decreases c
  {
    if c.NoAnds? then r else AndsOpts(UnionEach(r[0], OperandOpts(c.operand)), c.rest)
  }

  ghost function TermOpts(t: Term): (r: Opts)
    ensures r != [] && NoneEmpty(r)
  {
    AndsOpts(OperandOpts(t.operand), t.ands)
  }

  ghost function OrsOpts(o: Ors): (r: Opts)
    ensures NoneEmpty(r)
  {
    match o
    case NoOrs => []
    case Or(op, term, rest) => TermOpts(term) + OrsOpts(rest)
  }

  ghost function ExprOpts(e: Expr): (r: Opts)
    ensures r != [] && NoneEmpty(r)
  {
    TermOpts(e.term) + OrsOpts(e.ors)
  }

  // ---- one option exactly without an OR

  lemma {:induction false} OperandCount(a: Operand)
    requires OperandLastOnly(a)
    ensures |OperandOpts(a)| == 1 <==> !OperandHasOr(a)
  {
    if a.Group? { ExprCount(a.e); }
  }

  lemma {:induction false} AndsCount(r: Opts, c: Ands)
    requires r != [] && NoneEmpty(r) && AndsLastOnly(c) && (c.And? ==> |r| == 1)
    ensures |AndsOpts(r, c)| == 1 <==> |r| == 1 && !AndsHaveOr(c)
    decreases c
  {
    if c.And? {
      OperandCount(c.operand);
      AndsCount(UnionEach(r[0], OperandOpts(c.operand)), c.rest);
    }
  }

  lemma {:induction false} ExprCount(e: Expr)
    requires LastOnly(e)
    ensures |ExprOpts(e)| == 1 <==> !ExprHasOr(e)
  {
    OperandCount(e.term.operand);
    AndsCount(OperandOpts(e.term.operand), e.term.ands);
  }

  // ---- the options mean the expression

  lemma {:induction false} OperandMeaning(a: Operand, ids: set<string>)
    requires OperandLastOnly(a)
    ensures Satisfies(OperandOpts(a), ids) <==> OperandHolds(a, ids)
  {
    match a
    case Word(id) => OneMeaning(id, ids);
    case Exception(id, op, exception) => OneMeaning(id + " WITH " + exception, ids);
    case Group(e) => ExprMeaning(e, ids);
  }

  lemma OneMeaning(id: string, ids: set<string>)
    ensures Satisfies([{id}], ids) <==> id in ids
  {
    assert {id} in [{id}];
  }

  lemma UnionMeaning(a: set<string>, bs: Opts, ids: set<string>)
    ensures Satisfies(UnionEach(a, bs), ids) <==> a <= ids && Satisfies(bs, ids)
  {
    var r := UnionEach(a, bs);
    if Satisfies(r, ids) {
      var i :| 0 <= i < |r| && r[i] <= ids;
      assert bs[i] in bs && bs[i] <= ids;
    }
    if a <= ids && Satisfies(bs, ids) {
      var i :| 0 <= i < |bs| && bs[i] <= ids;
      assert r[i] in r;
    }
  }

  lemma {:induction false} AndsMeaning(r: Opts, c: Ands, ids: set<string>)
    requires r != [] && NoneEmpty(r) && AndsLastOnly(c) && (c.And? ==> |r| == 1)
    ensures Satisfies(AndsOpts(r, c), ids) <==> Satisfies(r, ids) && AndsHold(c, ids)
    decreases c
  {
    if c.And? {
      OperandCount(c.operand);
      OperandMeaning(c.operand, ids);
      UnionMeaning(r[0], OperandOpts(c.operand), ids);
      assert r == [r[0]];
      AndsMeaning(UnionEach(r[0], OperandOpts(c.operand)), c.rest, ids);
    }
  }

  lemma ConcatMeaning(a: Opts, b: Opts, ids: set<string>)
    ensures Satisfies(a + b, ids) <==> Satisfies(a, ids) || Satisfies(b, ids)
  {
    assert forall o :: o in a + b <==> o in a || o in b;
  }

  lemma {:induction false} TermMeaning(t: Term, ids: set<string>)
    requires TermLastOnly(t)
    ensures Satisfies(TermOpts(t), ids) <==> TermHolds(t, ids)
  {
    OperandCount(t.operand);
    OperandMeaning(t.operand, ids);
    AndsMeaning(OperandOpts(t.operand), t.ands, ids);
  }

  lemma {:induction false} OrsMeaning(o: Ors, ids: set<string>)
    requires OrsLastOnly(o)
    ensures Satisfies(OrsOpts(o), ids) <==> OrsHold(o, ids)
  {
    if o.Or? {
      TermMeaning(o.term, ids);
      OrsMeaning(o.rest, ids);
      ConcatMeaning(TermOpts(o.term), OrsOpts(o.rest), ids);
    }
  }

  lemma {:induction false} ExprMeaning(e: Expr, ids: set<string>)
    requires LastOnly(e)
    ensures Satisfies(ExprOpts(e), ids) <==> Holds(e, ids)
  {
    TermMeaning(e.term, ids);
    OrsMeaning(e.ors, ids);
    ConcatMeaning(TermOpts(e.term), OrsOpts(e.ors), ids);
  }

  // ---- the parser returns those options exactly when only last operands have alternatives

  ghost predicate At(toks: seq<string>, pos: nat, ts: seq<string>) {
    pos + |ts| <= |toks| && toks[pos..pos + |ts|] == ts
  }

  lemma AtSplit(toks: seq<string>, pos: nat, a: seq<string>, b: seq<string>)
    requires At(toks, pos, a + b)
    ensures At(toks, pos, a) && At(toks, pos + |a|, b)
  {
    assert toks[pos..pos + |a + b|][..|a|] == a;
    assert toks[pos..pos + |a + b|][|a|..] == b;
  }

  /** What can follow an operator chain: the end, a closing parenthesis, or an OR. */
  ghost predicate EndsTerm(toks: seq<string>, pos: nat) {
    pos == |toks| || (pos < |toks| && (toks[pos] == ")" || IsOr(toks[pos])))
  }

  /** What can follow an operand. */
  ghost predicate EndsOperand(toks: seq<string>, pos: nat) {
    EndsTerm(toks, pos) || (pos < |toks| && IsAnd(toks[pos]))
  }

  lemma TermOver(toks: seq<string>, pos: nat)
    requires EndsTerm(toks, pos)
    ensures pos >= |toks| || !IsAnd(toks[pos])
  {
  }

  lemma {:induction false} NoAtomThere(toks: seq<string>, pos: nat)
    requires EndsOperand(toks, pos)
    ensures Atom(toks, pos) == None
  {
  }

  lemma {:induction false} OperandParses(toks: seq<string>, pos: nat, a: Operand)
    requires OperandOk(a) && At(toks, pos, OperandToks(a)) && EndsOperand(toks, pos + |OperandToks(a)|)
    ensures Atom(toks, pos) == if OperandLastOnly(a) then Some((OperandOpts(a), pos + |OperandToks(a)|)) else None
    decreases a
  {
    match a
    case Word(id) =>
      assert toks[pos] == toks[pos..pos + 1][0];
    case Exception(id, op, exception) =>
      var ts := toks[pos..pos + 3];
      assert toks[pos] == ts[0] && toks[pos + 1] == ts[1] && toks[pos + 2] == ts[2];
    case Group(e) =>
      AtSplit(toks, pos, ["("] + ExprToks(e), [")"]);
      AtSplit(toks, pos, ["("], ExprToks(e));
      assert toks[pos] == toks[pos..pos + 1][0];
      var end := pos + 1 + |ExprToks(e)|;
      assert toks[end] == toks[end..end + 1][0];
      ExprParses(toks, pos + 1, e);
  }

  lemma {:induction false} AndsParse(toks: seq<string>, pos: nat, r: Opts, c: Ands)
    requires r != [] && NoneEmpty(r) && 0 < pos && AndsOk(c) && At(toks, pos, AndsToks(c)) && EndsTerm(toks, pos + |AndsToks(c)|)
    ensures ConjTail(toks, r, pos) ==
      if AndsLastOnly(c) && (c.And? ==> |r| == 1) then Some((AndsOpts(r, c), pos + |AndsToks(c)|)) else None
    decreases c
  {
    hide Atom, OperandOk, OperandToks, OperandOpts, OperandLastOnly, OperandHasOr, IsAnd, IsOr;
    if c.And? {
      var ts := OperandToks(c.operand);
      var mid := pos + 1 + |ts|;
      AtSplit(toks, pos, [c.op] + ts, AndsToks(c.rest));
      AtSplit(toks, pos, [c.op], ts);
      assert toks[pos] == toks[pos..pos + 1][0];
      AndsStart(toks, mid, c.rest);
      OperandParses(toks, pos + 1, c.operand);
      NoAtomThere(toks, mid);
      assert |r| > 1 ==> Distribute(toks, r[1..], mid) == None;
      if OperandLastOnly(c.operand) && |r| == 1 {
        OperandCount(c.operand);
        AndsParse(toks, mid, UnionEach(r[0], OperandOpts(c.operand)), c.rest);
      }
    } else {
      TermOver(toks, pos);
    }
  }

  lemma {:induction false} AndsStart(toks: seq<string>, pos: nat, c: Ands)
    requires AndsOk(c) && At(toks, pos, AndsToks(c)) && EndsTerm(toks, pos + |AndsToks(c)|)
    ensures EndsOperand(toks, pos)
  {
    if c.And? {
      assert toks[pos] == toks[pos..pos + |AndsToks(c)|][0];
    }
  }

  lemma {:induction false} TermParses(toks: seq<string>, pos: nat, t: Term)
    requires TermOk(t) && At(toks, pos, TermToks(t)) && EndsTerm(toks, pos + |TermToks(t)|)
    ensures Conj(toks, pos) == if TermLastOnly(t) then Some((TermOpts(t), pos + |TermToks(t)|)) else None
    decreases t
  {
    hide Atom, ConjTail, OperandOk, OperandToks, OperandOpts, OperandLastOnly, OperandHasOr;
    hide AndsOk, AndsToks, AndsOpts, AndsLastOnly, AndsHaveOr, EndsTerm, EndsOperand;
    var ts := OperandToks(t.operand);
    AtSplit(toks, pos, ts, AndsToks(t.ands));
    AndsStart(toks, pos + |ts|, t.ands);
    OperandParses(toks, pos, t.operand);
    if OperandLastOnly(t.operand) {
      OperandCount(t.operand);
      AndsParse(toks, pos + |ts|, OperandOpts(t.operand), t.ands);
    }
  }

  /** What can follow a whole expression: the end, or a closing parenthesis. */
  ghost predicate EndsExpr(toks: seq<string>, pos: nat) {
    pos == |toks| || (pos < |toks| && toks[pos] == ")")
  }

  lemma ExprOver(toks: seq<string>, pos: nat)
    requires EndsExpr(toks, pos)
    ensures pos >= |toks| || !IsOr(toks[pos])
  {
  }

  lemma {:induction false} OrsStart(toks: seq<string>, pos: nat, o: Ors)
    requires OrsOk(o) && At(toks, pos, OrsToks(o)) && EndsExpr(toks, pos + |OrsToks(o)|)
    ensures EndsTerm(toks, pos)
  {
    if o.Or? {
      assert toks[pos] == toks[pos..pos + |OrsToks(o)|][0];
    }
  }

  lemma {:induction false} OrsParse(toks: seq<string>, pos: nat, r: Opts, o: Ors)
    requires r != [] && 0 < pos && OrsOk(o) && At(toks, pos, OrsToks(o)) && EndsExpr(toks, pos + |OrsToks(o)|)
    ensures AltTail(toks, r, pos) ==
      if OrsLastOnly(o) then Some((r + OrsOpts(o), pos + |OrsToks(o)|)) else None
    decreases o
  {
    hide Conj, TermOk, TermToks, TermOpts, TermLastOnly, IsOr;
    if o.Or? {
      var ts := TermToks(o.term);
      var mid := pos + 1 + |ts|;
      AtSplit(toks, pos, [o.op] + ts, OrsToks(o.rest));
      AtSplit(toks, pos, [o.op], ts);
      assert toks[pos] == toks[pos..pos + 1][0];
      OrsStart(toks, mid, o.rest);
      TermParses(toks, pos + 1, o.term);
      if TermLastOnly(o.term) {
        OrsParse(toks, mid, r + TermOpts(o.term), o.rest);
        assert r + TermOpts(o.term) + OrsOpts(o.rest) == r + OrsOpts(o);
      }
    } else {
      assert r + OrsOpts(o) == r;
      ExprOver(toks, pos);
    }
  }

  lemma {:induction false} ExprParses(toks: seq<string>, pos: nat, e: Expr)
    requires ExprOk(e) && At(toks, pos, ExprToks(e)) && EndsExpr(toks, pos + |ExprToks(e)|)
    ensures Alt(toks, pos) == if LastOnly(e) then Some((ExprOpts(e), pos + |ExprToks(e)|)) else None
    decreases e
  {
    hide Conj, AltTail, TermOk, TermToks, TermOpts, TermLastOnly, OrsOk, OrsToks, OrsOpts, OrsLastOnly, EndsTerm, EndsExpr;
    var ts := TermToks(e.term);
    AtSplit(toks, pos, ts, OrsToks(e.ors));
    OrsStart(toks, pos + |ts|, e.ors);
    TermParses(toks, pos, e.term);
    if TermLastOnly(e.term) {
      OrsParse(toks, pos + |ts|, TermOpts(e.term), e.ors);
    }
  }

  /** On a well-formed expression `options` returns exactly when only the last operand of each AND chain
      has alternatives, and what it returns means the expression. */
  lemma {:induction false} OptionsMeanExpr(e: Expr)
    requires ExprOk(e)
    ensures Options(ExprToks(e)).Some? <==> LastOnly(e)
    ensures Options(ExprToks(e)).Some? ==>
      forall ids :: Satisfies(Options(ExprToks(e)).value, ids) <==> Holds(e, ids)
  {
    var toks := ExprToks(e);
    assert toks[0..|toks|] == toks;
    ExprParses(toks, 0, e);
    if LastOnly(e) {
      forall ids { ExprMeaning(e, ids); }
    }
  }

  const NOTICE_ONLY := {"MIT", "X11", "HPND", "BSD-2-Clause", "BSD-3-Clause", "ISC", "Zlib", "0BSD"}

  /** Some option is made only of notice-only ids. */
  predicate NoticeOnly(toks: seq<string>) {
    var opts := Options(toks);
    opts.Some? && exists o :: o in opts.value && o != {} && o <= NOTICE_ONLY
  }

  /** `notice_only` accepts a well-formed expression exactly when its parse returns and the notice-only
      ids satisfy it; so it never accepts one they do not satisfy. */
  lemma {:induction false} NoticeOnlyExactly(e: Expr)
    requires ExprOk(e)
    ensures NoticeOnly(ExprToks(e)) <==> LastOnly(e) && Holds(e, NOTICE_ONLY)
  {
    OptionsMeanExpr(e);
    var toks := ExprToks(e);
    assert toks[0..|toks|] == toks;
    ExprParses(toks, 0, e);
  }

  // ---- text

  /** A token as the tokenizer finds it in text. */
  ghost predicate IsTokenText(t: string) {
    (|t| == 1 && IsPunct(t[0])) || (t != [] && forall i :: 0 <= i < |t| ==> IsIdChar(t[i]))
  }

  ghost function Render(ts: seq<string>): string {
    if ts == [] then "" else if |ts| == 1 then ts[0] else ts[0] + " " + Render(ts[1..])
  }

  lemma {:induction false} IdRun(t: string, rest: string)
    requires forall i :: 0 <= i < |t| ==> IsIdChar(t[i])
    requires rest == [] || !IsIdChar(rest[0])
    ensures IdLength(t + rest) == |t|
  {
    var n := IdLength(t + rest);
    assert rest != [] ==> (t + rest)[|t|] == rest[0];
  }

  /** Tokenizing what a token list is written as gives the list back. */
  lemma {:induction false} TokensOfRender(ts: seq<string>)
    requires forall t :: t in ts ==> IsTokenText(t)
    ensures Tokens(Render(ts)) == Some(ts)
  {
    if ts != [] {
      var t := ts[0];
      var rest := if |ts| == 1 then "" else " " + Render(ts[1..]);
      var s := t + rest;
      assert Render(ts) == s;
      TokensOfRender(ts[1..]);
      assert rest != [] ==> rest[1..] == Render(ts[1..]);
      assert Tokens(rest) == Some(ts[1..]);
      FirstToken(t, rest);
      assert [t] + ts[1..] == ts;
    }
  }

  lemma {:induction false} FirstToken(t: string, rest: string)
    requires IsTokenText(t) && (rest == [] || IsPunct(t[0]) || !IsIdChar(rest[0]))
    ensures Tokens(t + rest) == Prepend([t], Tokens(rest))
  {
    var s := t + rest;
    assert s[..|t|] == t && s[|t|..] == rest && s[0] == t[0];
    if !IsPunct(t[0]) {
      IdRun(t, rest);
    }
  }
}
