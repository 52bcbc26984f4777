/** How token lists are written as text, and that `_tokens` reads back exactly those texts. */
module SpdxText {
  import opened Wrappers
  import opened Text
  import opened Spdx

  predicate Blank(s: string) {
    forall i :: 0 <= i < |s| ==> IsSpace(s[i])
  }

  ghost predicate IsId(t: string) {
    t != [] && forall i :: 0 <= i < |t| ==> IsIdChar(t[i])
  }

  /** The tokens with a gap before each and one after the last. */
  function Layout(gaps: seq<string>, ts: seq<string>): string
    requires |gaps| == |ts| + 1
  {
    if ts == [] then gaps[0] else gaps[0] + (ts[0] + Layout(gaps[1..], ts[1..]))
  }

  /** White space of any length, which only two ids need between them. */
  ghost predicate GapsFit(gaps: seq<string>, ts: seq<string>)
    requires |gaps| == |ts| + 1
  {
    && (forall i :: 0 <= i < |gaps| ==> Blank(gaps[i]))
    && (forall i :: 0 < i < |ts| && IsId(ts[i - 1]) && IsId(ts[i]) ==> gaps[i] != "")
  }

  ghost predicate Spells(gaps: seq<string>, ts: seq<string>, text: string) {
    |gaps| == |ts| + 1 && GapsFit(gaps, ts) && text == Layout(gaps, ts)
  }

  /** `text` writes the tokens `ts`. */
  ghost predicate Written(text: string, ts: seq<string>) {
    (forall t :: t in ts ==> IsTokenText(t)) && exists gaps :: Spells(gaps, ts, text)
  }

  predicate Letter(c: char, upper: char) {
    c == upper || c as int == upper as int + 32
  }

  /** The operators are written in either case, and OR also as a slash; every other token but a parenthesis is
      a word. */
  lemma OperatorsExactly(t: string)
    ensures IsAnd(t) <==> |t| == 3 && Letter(t[0], 'A') && Letter(t[1], 'N') && Letter(t[2], 'D')
    ensures IsOr(t) <==> t == "/" || (|t| == 2 && Letter(t[0], 'O') && Letter(t[1], 'R'))
    ensures IsWith(t) <==> |t| == 4 && Letter(t[0], 'W') && Letter(t[1], 'I') && Letter(t[2], 'T') && Letter(t[3], 'H')
    ensures IsWord(t) <==> !IsAnd(t) && !IsOr(t) && !IsWith(t) && t != "(" && t != ")"
  {
    var u := Upper(t);
    if |t| == 2 { assert u == "OR" <==> u[0] == 'O' && u[1] == 'R'; }
    if |t| == 3 { assert u == "AND" <==> u[0] == 'A' && u[1] == 'N' && u[2] == 'D'; }
    if |t| == 4 { assert u == "WITH" <==> u[0] == 'W' && u[1] == 'I' && u[2] == 'T' && u[3] == 'H'; }
    assert Upper("/") == "/";
  }

  lemma CharKinds(c: char)
    ensures IsSpace(c) ==> !IsPunct(c) && !IsIdChar(c)
    ensures IsPunct(c) ==> !IsIdChar(c)
  {
  }

  lemma {:induction false} BlankSkipped(gap: string, s: string)
    requires Blank(gap)
    ensures Tokens(gap + s) == Tokens(s)
  {
    hide IsSpace;
    if gap == [] {
      assert gap + s == s;
    } else {
      assert (gap + s)[1..] == gap[1..] + s;
      BlankSkipped(gap[1..], s);
    }
  }

  /** What follows an id does not lengthen it. */
  lemma AfterId(gaps: seq<string>, ts: seq<string>)
    requires |gaps| == |ts| + 1 && |ts| > 0 && GapsFit(gaps, ts) && IsId(ts[0])
    requires forall t :: t in ts ==> IsTokenText(t)
    ensures var rest := Layout(gaps[1..], ts[1..]); rest == [] || !IsIdChar(rest[0])
  {
    hide IsSpace, IsIdChar, IsPunct;
    var rest := Layout(gaps[1..], ts[1..]);
    if gaps[1] != "" {
      CharKinds(rest[0]);
      assert rest[0] == gaps[1][0];
    } else if |ts| > 1 {
      assert ts[1] in ts && rest[0] == ts[1][0];
      CharKinds(rest[0]);
    }
  }

  lemma {:induction false} LayoutTokens(gaps: seq<string>, ts: seq<string>)
    requires |gaps| == |ts| + 1 && GapsFit(gaps, ts) && forall t :: t in ts ==> IsTokenText(t)
    ensures Tokens(Layout(gaps, ts)) == Some(ts)
    decreases |ts|
  {
    hide IsSpace, IsIdChar, IsPunct, IsTokenText, IsId;
    if ts == [] {
      BlankSkipped(gaps[0], "");
      assert gaps[0] + "" == gaps[0];
    } else {
      var rest := Layout(gaps[1..], ts[1..]);
      LayoutTokens(gaps[1..], ts[1..]);
      BlankSkipped(gaps[0], ts[0] + rest);
      if IsId(ts[0]) { AfterId(gaps, ts); }
      TokenFirst(ts[0], rest);
      assert [ts[0]] + ts[1..] == ts;
    }
  }

  lemma {:induction false} TokenFirst(t: string, rest: string)
    requires IsTokenText(t) && (IsId(t) ==> rest == [] || !IsIdChar(rest[0]))
    ensures Tokens(t + rest) == Prepend([t], Tokens(rest))
  {
    hide IsSpace, IsIdChar, IsPunct, Prepend;
    CharKinds(t[0]);
    FirstToken(t, rest);
  }

  lemma SpaceBefore(c: char, gaps: seq<string>, ts: seq<string>, s: string)
    requires IsSpace(c) && Spells(gaps, ts, s)
    ensures Spells([[c] + gaps[0]] + gaps[1..], ts, [c] + s)
  {
    hide IsSpace;
    var more := [[c] + gaps[0]] + gaps[1..];
    assert more[1..] == gaps[1..];
    assert forall i :: 0 < i < |gaps| ==> more[i] == gaps[i];
    if ts == [] {
    } else {
      assert [c] + gaps[0] + (ts[0] + Layout(gaps[1..], ts[1..])) == [c] + (gaps[0] + (ts[0] + Layout(gaps[1..], ts[1..])));
    }
  }

  lemma TokenBefore(t: string, gaps: seq<string>, ts: seq<string>, s: string)
    requires Spells(gaps, ts, s) && (forall u :: u in ts ==> IsTokenText(u))
    requires IsId(t) && s != [] ==> !IsIdChar(s[0])
    ensures Spells([""] + gaps, [t] + ts, t + s)
  {
    hide IsSpace, IsIdChar, IsPunct;
    var more, all := [""] + gaps, [t] + ts;
    assert more[1..] == gaps && all[1..] == ts;
    assert "" + (t + s) == t + s;
    assert forall i :: 0 < i < |more| ==> more[i] == gaps[i - 1];
    forall i | 0 < i < |all| && IsId(all[i - 1]) && IsId(all[i])
      ensures more[i] != ""
    {
      if i > 1 {
        assert all[i - 1] == ts[i - 2] && all[i] == ts[i - 1];
      }
    }
  }

  lemma {:induction false} TokensLayout(s: string) returns (gaps: seq<string>)
    requires Tokens(s).Some?
    ensures Spells(gaps, Tokens(s).value, s) && forall t :: t in Tokens(s).value ==> IsTokenText(t)
    decreases |s|
  {
    hide IsSpace, IsIdChar, IsPunct, Spells;
    if s == [] {
      gaps := [""];
      assert Spells([""], [], "") by { NothingSpelled(); }
    } else if IsSpace(s[0]) {
      gaps := TokensLayout(s[1..]);
      assert |gaps| > 0 by { SpellsLength(gaps, Tokens(s).value, s[1..]); }
      SpaceBefore(s[0], gaps, Tokens(s).value, s[1..]);
      gaps := [[s[0]] + gaps[0]] + gaps[1..];
      assert [s[0]] + s[1..] == s;
    } else {
      CharKinds(s[0]);
      var n := if IsPunct(s[0]) then 1 else IdLength(s);
      var t, rest := s[..n], s[n..];
      gaps := TokensLayout(rest);
      assert t + rest == s;
      TokenBefore(t, gaps, Tokens(rest).value, rest);
      gaps := [""] + gaps;
    }
  }

  lemma NothingSpelled()
    ensures Spells([""], [], "")
  {
  }

  lemma SpellsLength(gaps: seq<string>, ts: seq<string>, s: string)
    requires Spells(gaps, ts, s)
    ensures |gaps| > 0
  {
  }

  /** `_tokens` gives a token list for exactly the texts that write it, and an error for every other text. */
  lemma {:induction false} TokensExactly(text: string, ts: seq<string>)
    ensures Tokens(text) == Some(ts) <==> Written(text, ts)
  {
    hide Spells, IsTokenText;
    if Tokens(text) == Some(ts) {
      var gaps := TokensLayout(text);
    }
    if Written(text, ts) {
      var gaps :| Spells(gaps, ts, text);
      SpelledTokens(gaps, ts, text);
    }
  }

  lemma {:induction false} SpelledTokens(gaps: seq<string>, ts: seq<string>, text: string)
    requires Spells(gaps, ts, text) && forall t :: t in ts ==> IsTokenText(t)
    ensures Tokens(text) == Some(ts)
  {
    LayoutTokens(gaps, ts);
  }

  lemma {:induction false} IdLengthBlank(s: string, gap: string)
    requires Blank(gap)
    ensures IdLength(s + gap) == IdLength(s)
  {
    hide IsSpace, IsIdChar;
    var n := IdLength(s);
    assert s + gap == s[..n] + (s[n..] + gap);
    var rest := s[n..] + gap;
    if rest != [] { CharKinds(rest[0]); }
    IdRun(s[..n], rest);
  }

  lemma {:induction false} BlankAfter(s: string, gap: string)
    requires Blank(gap)
    ensures Tokens(s + gap) == Tokens(s)
    decreases |s|
  {
    hide IsSpace, IsIdChar, IsPunct;
    if s == [] {
      BlankSkipped(gap, "");
      assert s + gap == gap && gap + "" == gap;
    } else {
      assert (s + gap)[1..] == s[1..] + gap && (s + gap)[0] == s[0] && (s + gap)[..1] == s[..1];
      BlankAfter(s[1..], gap);
      CharKinds(s[0]);
      if IsIdChar(s[0]) {
        var n := IdLength(s);
        IdLengthBlank(s, gap);
        assert (s + gap)[..n] == s[..n] && (s + gap)[n..] == s[n..] + gap;
        BlankAfter(s[n..], gap);
      }
    }
  }

  lemma {:induction false} LStripTokens(s: string)
    ensures Tokens(LStrip(s)) == Tokens(s)
  {
    hide IsSpace, Tokens;
    var r := LStrip(s);
    hide LStrip;
    var gap := s[..|s| - |r|];
    assert Blank(gap) && s == gap + r;
    BlankSkipped(gap, r);
  }

  lemma {:induction false} RStripTokens(s: string)
    ensures Tokens(RStrip(s)) == Tokens(s)
  {
    hide IsSpace, Tokens;
    var r := RStrip(s);
    hide RStrip;
    var gap := s[|r|..];
    assert Blank(gap) && s == r + gap;
    BlankAfter(r, gap);
  }

  /** White space at the ends does not matter. */
  lemma {:induction false} StripTokens(s: string)
    ensures Tokens(Strip(s)) == Tokens(s)
  {
    hide Tokens, LStrip, RStrip;
    LStripTokens(s);
    RStripTokens(LStrip(s));
  }
}
