/** The reader as `check_provenance.py` runs it: a position in the tokens, moved by three nested readers. */
module SpdxReader {
  import opened Wrappers
  import opened Text
  import opened Spdx
  import opened SpdxText

  /** What `out` and a later result make together. */
  ghost function After(out: Opts, rest: Parsed): Parsed {
    if rest.None? then None else Some((out + rest.value.0, rest.value.1))
  }

  lemma AfterTwice(out: Opts, more: Opts, rest: Parsed)
    ensures After(out, After(more, rest)) == After(out + more, rest)
    ensures After([], rest) == rest
  {
    if rest.Some? {
      assert out + (more + rest.value.0) == out + more + rest.value.0;
      assert [] + rest.value.0 == rest.value.0;
    }
  }

  class Reader {
    const toks: seq<string>
    var pos: nat

    constructor (toks: seq<string>)
      ensures this.toks == toks && pos == 0
    {
      this.toks := toks;
      pos := 0;
    }

    /** The reader returned what the parser function says: the options and the position after them. */
    ghost predicate Read(expected: Parsed, r: Option<Opts>)
      reads this
    {
      if expected.None? then r.None? else r == Some(expected.value.0) && pos == expected.value.1
    }

    method ReadAtom() returns (r: Option<Opts>)
      requires pos <= |toks|
      modifies this`pos
      ensures pos <= |toks| && Read(Atom(toks, old(pos)), r)
      decreases |toks| - pos, 0
    {
      if pos >= |toks| {
        return None;
      }
      var t := toks[pos];
      pos := pos + 1;
      if t == "(" {
        r := ReadAlt();
        if r.Some? {
          if pos >= |toks| || toks[pos] != ")" {
            return None;
          }
          pos := pos + 1;
        }
        return r;
      }
      if !IsWord(t) {
        return None;
      }
      if pos < |toks| && IsWith(toks[pos]) {
        pos := pos + 1;
        if pos >= |toks| {
          return None;
        }
        t := t + " WITH " + toks[pos];
        pos := pos + 1;
      }
      r := Some([{t}]);
    }

    /** The comprehension of line 232: `atom()` is called once for each option already on the left. */
    method ReadDistributed(opts: Opts) returns (r: Option<Opts>)
      requires opts != [] && pos <= |toks|
      modifies this`pos
      ensures pos <= |toks| && Read(Distribute(toks, opts, old(pos)), r)
      decreases |toks| - pos, 1
    {
      ghost var whole := Distribute(toks, opts, pos);
      var out: Opts := [];
      assert opts[0..] == opts;
      AfterTwice([], [], whole);
      for i := 0 to |opts|
        invariant old(pos) <= pos <= |toks|
        invariant i < |opts| ==> whole == After(out, Distribute(toks, opts[i..], pos))
        invariant i == |opts| ==> whole == Some((out, pos))
      {
        var bs := ReadAtom();
        if bs.None? {
          return None;
        }
        assert opts[i..][1..] == opts[i + 1..];
        var more := UnionEach(opts[i], bs.value);
        if i + 1 < |opts| {
          AfterTwice(out, more, Distribute(toks, opts[i + 1..], pos));
        }
        out := out + more;
      }
      r := Some(out);
    }

    method ReadConj() returns (r: Option<Opts>)
      requires pos <= |toks|
      modifies this`pos
      ensures pos <= |toks| && Read(Conj(toks, old(pos)), r)
      decreases |toks| - pos, 3
    {
      r := ReadAtom();
      if r.None? {
        return;
      }
      while pos < |toks| && IsAnd(toks[pos])
        invariant old(pos) < pos <= |toks| && r.Some? && r.value != []
        invariant ConjTail(toks, r.value, pos) == Conj(toks, old(pos))
        decreases |toks| - pos
      {
        pos := pos + 1;
        r := ReadDistributed(r.value);
        if r.None? {
          return;
        }
      }
    }

    method ReadAlt() returns (r: Option<Opts>)
      requires pos <= |toks|
      modifies this`pos
      ensures pos <= |toks| && Read(Alt(toks, old(pos)), r)
      decreases |toks| - pos, 5
    {
      r := ReadConj();
      if r.None? {
        return;
      }
      while pos < |toks| && IsOr(toks[pos])
        invariant old(pos) < pos <= |toks| && r.Some? && r.value != []
        invariant AltTail(toks, r.value, pos) == Alt(toks, old(pos))
        decreases |toks| - pos
      {
        pos := pos + 1;
        var more := ReadConj();
        if more.None? {
          return None;
        }
        r := Some(r.value + more.value);
      }
    }
  }

  lemma WrittenText(expr: string)
    ensures forall ts :: Tokens(Strip(expr)) == Some(ts) <==> Written(expr, ts)
  {
    hide Strip, Written, Tokens;
    StripTokens(expr);
    forall ts
      ensures Tokens(Strip(expr)) == Some(ts) <==> Written(expr, ts)
    {
      TokensExactly(expr, ts);
    }
  }

  /** `_tokens`: the tokens the text writes, or `None` if it writes no token list. */
  method Tokenize(expr: string) returns (r: Option<seq<string>>)
    ensures r == Tokens(Strip(expr))
    ensures forall ts :: r == Some(ts) <==> Written(expr, ts)
  {
    hide IsSpace, IsIdChar, IsPunct, Strip, Written;
    WrittenText(expr);
    var text := Strip(expr);
    var out: seq<string> := [];
    var pos := 0;
    assert text[0..] == text;
    PrependNothing(Tokens(text));
    while pos < |text|
      invariant 0 <= pos <= |text|
      invariant Tokens(text) == Prepend(out, Tokens(text[pos..]))
    {
      var rest := text[pos..];
      var n := 0;
      if IsSpace(rest[0]) {
        assert rest[1..] == text[pos + 1..];
        pos := pos + 1;
        continue;
      } else if IsPunct(rest[0]) {
        n := 1;
      } else {
        n := IdLength(rest);
      }
      if n == 0 {
        return None;
      }
      assert rest[n..] == text[pos + n..];
      PrependTwice(out, rest[..n], Tokens(rest[n..]));
      out := out + [rest[..n]];
      pos := pos + n;
    }
    assert out + [] == out;
    r := Some(out);
  }

  lemma PrependNothing(ts: Option<seq<string>>)
    ensures Prepend([], ts) == ts
  {
    if ts.Some? {
      assert [] + ts.value == ts.value;
    }
  }

  lemma PrependTwice(out: seq<string>, t: string, ts: Option<seq<string>>)
    ensures Prepend(out, Prepend([t], ts)) == Prepend(out + [t], ts)
  {
    if ts.Some? {
      assert out + ([t] + ts.value) == out + [t] + ts.value;
    }
  }

  /** `options`: `None` is a ValueError. */
  method ReadOptions(expr: string) returns (r: Option<Opts>)
    ensures r == if Tokens(Strip(expr)).None? then None else Options(Tokens(Strip(expr)).value)
  {
    var toks := Tokenize(expr);
    if toks.None? {
      return None;
    }
    var reader := new Reader(toks.value);
    r := reader.ReadAlt();
    if r.Some? && reader.pos != |toks.value| {
      r := None;
    }
  }

  /** `notice_only`: false where the expression is malformed. */
  method IsNoticeOnly(expr: string) returns (b: bool)
    ensures b <==> Tokens(Strip(expr)).Some? && NoticeOnly(Tokens(Strip(expr)).value)
    ensures b <==> exists ts :: Written(expr, ts) && NoticeOnly(ts)
  {
    WrittenText(expr);
    var opts := ReadOptions(expr);
    if opts.None? {
      return false;
    }
    b := exists o :: o in opts.value && o != {} && o <= NOTICE_ONLY;
  }
}
