/** What stands on one line: quoted scalars, comments after a value, and flow collections. */
module YamlInline {
  import opened Wrappers
  import opened Text
  import opened Yaml

  // ---- writing a scalar

  datatype Quote = Plain | Single | Double

  /** Every single quote twice. */
  function Doubled(v: string): string {
    if v == [] then [] else (if v[0] == '\'' then "''" else [v[0]]) + Doubled(v[1..])
  }

  /** Quotes, backslashes, newlines and tabs escaped. */
  function Escaped(v: string): string {
    if v == [] then [] else EscapedChar(v[0]) + Escaped(v[1..])
  }

  function EscapedChar(c: char): string {
    if c == '"' then ['\\', '"'] else if c == '\\' then ['\\', '\\'] else if c == '\n' then ['\\', 'n']
    else if c == '\t' then ['\\', 't'] else [c]
  }

  function ScalarText(v: string, quote: Quote): string {
    match quote
    case Plain => v
    case Single => "'" + Doubled(v) + "'"
    case Double => ['"'] + Escaped(v) + ['"']
  }

  // ---- reading it back

  lemma {:induction false} UndoubleDoubled(v: string)
    ensures Undouble(Doubled(v)) == v
  {
    if v != [] {
      UndoubleDoubled(v[1..]);
      var rest := Doubled(v[1..]);
      if v[0] == '\'' {
        assert ("''" + rest)[2..] == rest;
      } else {
        assert ([v[0]] + rest)[1..] == rest;
      }
    }
  }

  lemma {:induction false} UnescapeEscaped(v: string)
    ensures Unescape(Escaped(v)) == v
  {
    if v != [] {
      UnescapeEscaped(v[1..]);
      var rest := Escaped(v[1..]);
      UnescapeChar(v[0], rest);
    }
  }

  lemma {:induction false} UnescapeChar(c: char, rest: string)
    ensures Unescape(EscapedChar(c) + rest) == [c] + Unescape(rest)
  {
    var s := EscapedChar(c) + rest;
    if |EscapedChar(c)| == 2 {
      assert s[2..] == rest;
    } else {
      assert s[1..] == rest;
    }
  }

  /** A backslash before a slash or a quote is dropped; before a character that is no escape it stays. */
  lemma EscapesExactly(c: char, rest: string)
    ensures c == '/' || c == '"' || c == '\\' ==> Unescape(['\\', c] + rest) == [c] + Unescape(rest)
    ensures c != '/' && c != '"' && c != '\\' && c != 'n' && c != 't' ==>
      Unescape(['\\', c] + rest) == ['\\', c] + Unescape(rest)
  {
    var s := ['\\', c] + rest;
    assert s[2..] == rest && s[1..] == [c] + rest && s[1..][1..] == rest;
    assert ['\\'] + ([c] + Unescape(rest)) == ['\\', c] + Unescape(rest);
  }

  /** A value in quotes reads as the value, whatever it holds. */
  lemma QuotedReads(v: string, quote: Quote, no: nat)
    requires quote != Plain
    ensures Scalar(ScalarText(v, quote), no) == Ok(v)
  {
    var s := ScalarText(v, quote);
    UndoubleDoubled(v);
    UnescapeEscaped(v);
    if quote == Single {
      assert s[1..|s| - 1] == Doubled(v);
    } else {
      assert s[1..|s| - 1] == Escaped(v);
    }
  }

  /** A quoted key runs to the next quote of its kind. */
  lemma QuotedKey(key: string, quote: char, rest: string)
    requires (quote == '"' || quote == '\'') && quote !in key && (rest != [] ==> !IsSpace(rest[0]) && !IsSpace(rest[|rest| - 1]))
    ensures SplitKey([quote] + key + [quote] + ":" + (if rest == [] then "" else [' '] + rest)) == Some((key, rest))
  {
    hide IsSpace, SplitKey, Strip, Find;
    var after := ":" + if rest == [] then "" else [' '] + rest;
    var front := [quote] + key + [quote];
    assert front + ":" + (if rest == [] then "" else [' '] + rest) == front + after;
    KeyEnd(key, quote, after);
    SplitQuoted(front + after, key, after);
    assert after[1..] == if rest == [] then "" else [' '] + rest;
    StripSpaced(rest);
  }

  lemma {:induction false} SplitQuoted(text: string, key: string, after: string)
    requires |text| >= |key| + 2 && (text[0] == '"' || text[0] == '\'') && Find(text, text[0], 1) == Some(|key| + 1)
    requires text[1..|key| + 1] == key && text[|key| + 2..] == after
    requires after == ":" || (|after| >= 2 && after[0] == ':' && after[1] == ' ')
    ensures SplitKey(text) == Some((key, Strip(after[1..])))
  {
    hide IsSpace, Contains, Strip, Find;
  }

  lemma {:induction false} KeyEnd(key: string, quote: char, after: string)
    requires quote !in key
    ensures var text := [quote] + key + [quote] + after;
      && text[0] == quote && Find(text, quote, 1) == Some(|key| + 1)
      && text[1..|key| + 1] == key && text[|key| + 2..] == after
  {
    var text := [quote] + key + [quote] + after;
    assert text[1..|key| + 1] == key && text[|key| + 2..] == after && text[|key| + 1] == quote;
    assert forall i :: 1 <= i <= |key| ==> text[i] == key[i - 1];
  }

  lemma StripSpaced(s: string)
    requires s != [] ==> !IsSpace(s[0]) && !IsSpace(s[|s| - 1])
    ensures Strip(s) == s && Strip([' '] + s) == s
  {
    assert LStrip(s) == s && ([' '] + s)[1..] == s && IsSpace(' ');
  }

  // ---- comments

  predicate Gap(c: char) { c == ' ' || c == '\t' }

  /** A `#` that follows a space or a tab, somewhere after a single quote. */
  ghost predicate HashAfterQuote(v: string) {
    exists i, j :: QuoteHash(v, i, j)
  }

  ghost predicate QuoteHash(v: string, i: int, j: int) {
    0 <= i < j < |v| && v[i] == '\'' && v[j] == '#' && Gap(v[j - 1])
  }

  ghost predicate HashAt(v: string, prev: char, j: int) {
    0 <= j < |v| && v[j] == '#' && Gap(if j == 0 then prev else v[j - 1])
  }

  /** A `#` that follows a space or a tab, where `prev` stands before the text. */
  ghost predicate HashIn(v: string, prev: char) {
    exists j :: HashAt(v, prev, j)
  }

  lemma HashInCons(c: char, v: string, prev: char)
    ensures HashIn([c] + v, prev) <==> (c == '#' && Gap(prev)) || HashIn(v, c)
  {
    var s := [c] + v;
    if HashIn(s, prev) {
      var j :| HashAt(s, prev, j);
      if j > 0 { assert HashAt(v, c, j - 1); }
    }
    if HashIn(v, c) {
      var j :| HashAt(v, c, j);
      assert HashAt(s, prev, j + 1);
    }
    if c == '#' && Gap(prev) { assert HashAt(s, prev, 0); }
  }

  lemma HashAfterCons(c: char, v: string)
    ensures HashAfterQuote([c] + v) <==> (if c == '\'' then HashIn(v, c) else HashAfterQuote(v))
  {
    var s := [c] + v;
    if HashAfterQuote(s) {
      var i, j :| QuoteHash(s, i, j);
      assert HashAt(v, c, j - 1);
      if i > 0 { assert QuoteHash(v, i - 1, j - 1); }
    }
    if HashAfterQuote(v) {
      var i, j :| QuoteHash(v, i, j);
      assert QuoteHash(s, i + 1, j + 1);
    }
    if c == '\'' && HashIn(v, c) {
      var j :| HashAt(v, c, j);
      assert QuoteHash(s, 0, j + 1);
    }
  }

  /** Where no `#` follows white space no comment is found, inside quotes or not. */
  lemma {:induction false} NoHashNone(s: string, i: nat, quote: Option<char>, prev: char)
    requires i <= |s| && !HashIn(s[i..], prev)
    ensures CommentAt(s, i, quote, prev).None?
    decreases |s| - i
  {
    if i < |s| {
      assert s[i..] == [s[i]] + s[i + 1..];
      HashInCons(s[i], s[i + 1..], prev);
      NoHashNone(s, i + 1, None, s[i]);
      NoHashNone(s, i + 1, quote, s[i]);
      NoHashNone(s, i + 1, Some(s[i]), s[i]);
      if s[i] == '\'' && i + 1 < |s| && s[i + 1] == '\'' {
        assert s[i + 1..] == [s[i + 1]] + s[i + 2..];
        HashInCons(s[i + 1], s[i + 2..], s[i]);
        HashInCons(s[i + 1], s[i + 2..], prev);
        NoHashNone(s, i + 1, quote, prev);
      }
    }
  }

  /** The scan through what is left of a single-quoted value without double quotes, from inside the quotes or
      from outside: it never gets back inside once a quote of the value has let it out. */
  lemma {:induction false} SingleScan(s: string, i: nat, v: string, inside: bool, prev: char)
    requires i <= |s| && s[i..] == Doubled(v) + "'" && '"' !in v
    ensures CommentAt(s, i, if inside then Some('\'') else None, prev).Some?
       <==> if inside then HashAfterQuote(v) else HashIn(v, prev)
    decreases |v|, 1
  {
    if v == [] {
      assert s[i] == '\'' && |s| == i + 1;
    } else {
      var rest := v[1..];
      assert v == [v[0]] + rest;
      HashInCons(v[0], rest, prev);
      HashAfterCons(v[0], rest);
      if v[0] != '\'' {
        assert s[i..] == [v[0]] + (Doubled(rest) + "'");
        assert s[i] == v[0] && s[i + 1..] == Doubled(rest) + "'";
        SingleScan(s, i + 1, rest, inside, v[0]);
        hide HashIn, HashAfterQuote;
      } else {
        assert s[i..] == "''" + Doubled(rest) + "'";
        SingleScanQuote(s, i, rest, inside, prev);
        hide HashIn, HashAfterQuote;
      }
    }
  }

  lemma AfterRun(rest: string)
    requires rest == [] || rest[0] == '\''
    ensures HashAfterQuote(rest) <==> HashIn(rest, '\'')
  {
    if rest != [] {
      assert rest == [rest[0]] + rest[1..];
      HashAfterCons(rest[0], rest[1..]);
      HashInCons(rest[0], rest[1..], '\'');
    }
  }

  /** Past a doubled quote. */
  lemma {:induction false} SingleScanQuote(s: string, i: nat, rest: string, inside: bool, prev: char)
    requires i <= |s| && s[i..] == "''" + Doubled(rest) + "'" && '"' !in rest
    ensures CommentAt(s, i, if inside then Some('\'') else None, prev).Some? <==> HashIn(rest, '\'')
    decreases |rest| + 1, 0
  {
    var tail := Doubled(rest) + "'";
    assert s[i..] == "''" + tail;
    assert s[i] == '\'' && s[i + 1] == '\'' && s[i + 2..] == tail && s[i + 2] == tail[0];
    var run := rest == [] || rest[0] == '\'';
    assert tail[0] == '\'' <==> run;
    if run { AfterRun(rest); }
    SingleScan(s, i + 2, rest, true, prev);
    SingleScan(s, i + 2, rest, true, '\'');
    SingleScan(s, i + 2, rest, false, '\'');
    hide HashIn, HashAfterQuote;
    if inside {
      assert CommentAt(s, i, Some('\''), prev) == CommentAt(s, i + 1, Some('\''), prev);
      assert CommentAt(s, i + 1, Some('\''), prev) == if run then CommentAt(s, i + 2, Some('\''), prev) else CommentAt(s, i + 2, None, '\'');
    } else if OpensQuote(prev) {
      assert CommentAt(s, i, None, prev) == CommentAt(s, i + 1, Some('\''), '\'');
      assert CommentAt(s, i + 1, Some('\''), '\'') == if run then CommentAt(s, i + 2, Some('\''), '\'') else CommentAt(s, i + 2, None, '\'');
    } else {
      assert CommentAt(s, i, None, prev) == CommentAt(s, i + 1, None, '\'');
      assert CommentAt(s, i + 1, None, '\'') == CommentAt(s, i + 2, None, '\'');
    }
  }

  lemma {:induction false} DoubledHash(v: string, prev: char)
    ensures HashIn(Doubled(v) + "'", prev) <==> HashIn(v, prev)
  {
    hide HashIn;
    if v == [] {
      assert Doubled(v) + "'" == ['\''] + "";
      HashInCons('\'', "", prev);
      NoHash('\'');
      NoHash(prev);
    } else {
      var rest := v[1..];
      var tail := Doubled(rest) + "'";
      assert v == [v[0]] + rest;
      HashInCons(v[0], rest, prev);
      DoubledHash(rest, v[0]);
      if v[0] == '\'' {
        assert Doubled(v) + "'" == ['\''] + (['\''] + tail);
        HashInCons('\'', ['\''] + tail, prev);
        HashInCons('\'', tail, '\'');
      } else {
        assert Doubled(v) + "'" == [v[0]] + tail;
        HashInCons(v[0], tail, prev);
      }
    }
  }

  lemma NoHash(prev: char)
    ensures !HashIn("", prev)
  {
  }

  lemma {:induction false} SingleQuiet(s: string, i: nat, v: string, prev: char)
    requires i <= |s| && s[i..] == Doubled(v) + "'" && !HashAfterQuote(v)
    ensures CommentAt(s, i, Some('\''), prev).None?
    decreases |v|
  {
    if v == [] {
      assert s[i] == '\'' && |s| == i + 1;
    } else {
      var rest := v[1..];
      assert v == [v[0]] + rest;
      HashAfterCons(v[0], rest);
      hide HashIn, HashAfterQuote;
      if v[0] != '\'' {
        assert s[i..] == [v[0]] + (Doubled(rest) + "'");
        assert s[i] == v[0] && s[i + 1..] == Doubled(rest) + "'";
        SingleQuiet(s, i + 1, rest, v[0]);
      } else {
        HashInCons('\'', rest, prev);
        DoubledHash(v, prev);
        NoHashNone(s, i, Some('\''), prev);
      }
    }
  }

  /** A comment is found inside a single-quoted value exactly when the value has a `#` after white space
      somewhere after a quote of its own, since a doubled quote wrongly ends the quoting; a double quote in
      the value can hide that `#`. */
  lemma SingleExactly(v: string)
    ensures !HashAfterQuote(v) ==> CommentAt(ScalarText(v, Single), 0, None, ' ').None?
    ensures HashAfterQuote(v) && '"' !in v ==> CommentAt(ScalarText(v, Single), 0, None, ' ').Some?
  {
    hide HashAfterQuote;
    var s := ScalarText(v, Single);
    assert s[1..] == Doubled(v) + "'";
    if !HashAfterQuote(v) { SingleQuiet(s, 1, v, '\''); }
    if '"' !in v { SingleScan(s, 1, v, true, '\''); }
  }

  /** None is found inside a double-quoted value. */
  lemma {:induction false} DoubleScan(s: string, i: nat, v: string, prev: char)
    requires i <= |s| && s[i..] == Escaped(v) + ['"']
    ensures CommentAt(s, i, Some('"'), prev).None?
    decreases |v|
  {
    if v == [] {
      assert s[i] == '"' && |s| == i + 1;
    } else {
      var rest := Escaped(v[1..]) + ['"'];
      assert s[i..] == EscapedChar(v[0]) + rest;
      if |EscapedChar(v[0])| == 2 {
        assert s[i] == '\\' && s[i + 1] == EscapedChar(v[0])[1] && s[i + 2..] == rest;
        assert CommentAt(s, i, Some('"'), prev) == CommentAt(s, i + 1, Some('"'), '\\');
        DoubleScan(s, i + 2, v[1..], s[i + 1]);
      } else {
        assert s[i] == v[0] && s[i + 1..] == rest;
        DoubleScan(s, i + 1, v[1..], s[i]);
      }
    }
  }

  /** That holds wherever a quote opens: after white space, a bracket, a brace, a comma or a colon. */
  lemma DoubleQuiet(s: string, i: nat, v: string, prev: char)
    requires i <= |s| && s[i..] == ScalarText(v, Double)
    requires prev == ' ' || prev == '\t' || prev == '[' || prev == '{' || prev == ',' || prev == ':'
    ensures CommentAt(s, i, None, prev).None?
  {
    assert s[i] == '"' && s[i + 1..] == Escaped(v) + ['"'];
    DoubleScan(s, i + 1, v, '"');
  }

  /** A text scanned inside a longer one. */
  lemma {:induction false} CommentShift(a: string, b: string, i: nat, quote: Option<char>, prev: char)
    requires i <= |b|
    ensures CommentAt(b, i, quote, prev).None? ==> CommentAt(a + b, |a| + i, quote, prev).None?
    decreases |b| - i
  {
    var s := a + b;
    if i < |b| {
      assert s[|a| + i] == b[i] && |a| + i + 1 == |a| + (i + 1);
      assert i + 1 < |b| ==> s[|a| + i + 1] == b[i + 1];
      if quote.Some? {
        if b[i] != quote.value { CommentShift(a, b, i + 1, quote, b[i]); }
        else if b[i] == '\'' && i + 1 < |b| && b[i + 1] == '\'' { CommentShift(a, b, i + 1, quote, prev); }
        else if b[i] == '"' && prev == '\\' { CommentShift(a, b, i + 1, quote, b[i]); }
        else { CommentShift(a, b, i + 1, None, b[i]); }
      } else if (b[i] == '"' || b[i] == '\'') && OpensQuote(prev) {
        CommentShift(a, b, i + 1, Some(b[i]), b[i]);
      } else if b[i] != '#' || (prev != ' ' && prev != '\t') {
        CommentShift(a, b, i + 1, None, b[i]);
      }
    }
  }

  predicate NoQuotes(s: string) {
    '"' !in s && '\'' !in s
  }

  /** Nothing outside quotes stops the scan where no quote starts and no `#` follows white space. */
  lemma {:induction false} CommentPass(s: string, i: nat, n: nat, prev: char)
    requires i <= n <= |s| && NoQuotes(s[i..n]) && !HashIn(s[i..n], prev)
    ensures CommentAt(s, i, None, prev) == CommentAt(s, n, None, if i == n then prev else s[n - 1])
    decreases n - i
  {
    if i < n {
      var rest := s[i + 1..n];
      assert s[i..n] == [s[i]] + rest;
      HashInCons(s[i], rest, prev);
      hide HashIn;
      CommentPass(s, i + 1, n, s[i]);
    }
  }

  /** After a text without quotes or a comment of its own, ` #` starts the comment. */
  lemma CommentSplits(t: string, c: string)
    requires t != [] && !IsSpace(t[|t| - 1]) && NoQuotes(t) && !HashIn(t, ' ')
    ensures StripComment(t + " #" + c) == (t, Some(Strip(c)))
  {
    hide IsSpace, HashIn, CommentAt, RStrip, Strip;
    var s := t + " #" + c;
    CommentFound(t, c);
    assert s[..|t| + 1] == t + " " && s[|t| + 2..] == c;
    RStripSpace(t);
  }

  lemma CommentFound(t: string, c: string)
    requires t != [] && NoQuotes(t) && !HashIn(t, ' ')
    ensures CommentAt(t + " #" + c, 0, None, ' ') == Some(|t| + 1)
  {
    hide HashIn;
    var s := t + " #" + c;
    assert s[0..|t|] == t && s[|t|] == ' ' && s[|t| + 1] == '#';
    CommentPass(s, 0, |t|, ' ');
    assert CommentAt(s, |t| + 1, None, ' ') == Some(|t| + 1);
    assert CommentAt(s, |t|, None, s[|t| - 1]) == CommentAt(s, |t| + 1, None, ' ');
  }

  lemma {:induction false} RStripSpace(t: string)
    requires t != [] && !IsSpace(t[|t| - 1])
    ensures RStrip(t + " ") == t
  {
    var s := t + " ";
    assert s[..|s| - 1] == t && IsSpace(s[|s| - 1]);
    assert RStrip(t) == t;
  }

  // ---- flow collections

  predicate IsFlowMark(c: char) {
    c == '[' || c == ']' || c == '{' || c == '}' || c == ','
  }

  /** Scanned from inside `quote` or outside quotes, `t` ends outside quotes and has no mark outside them. */
  predicate Sealed(t: string, quote: Option<char>) {
    if t == [] then quote.None?
    else if quote.Some? then Sealed(t[1..], if t[0] == quote.value then None else quote)
    else if t[0] == '"' || t[0] == '\'' then Sealed(t[1..], Some(t[0]))
    else !IsFlowMark(t[0]) && Sealed(t[1..], None)
  }

  lemma {:induction false} PassSealed(s: string, i: nat, t: string, quote: Option<char>, parts: seq<string>, cur: string)
    requires i + |t| <= |s| && s[i..i + |t|] == t && Sealed(t, quote)
    ensures FlowScan(s, i, 1, quote, parts, cur) == FlowScan(s, i + |t|, 1, None, parts, cur + t)
    decreases |t|
  {
    if t == [] {
      assert cur + t == cur;
    } else {
      var rest := t[1..];
      assert s[i] == t[0] && s[i + 1..i + 1 + |rest|] == rest && i + 1 + |rest| == i + |t|;
      assert cur + t == cur + [t[0]] + rest;
      var next := if quote.Some? then (if t[0] == quote.value then None else quote)
                  else if t[0] == '"' || t[0] == '\'' then Some(t[0]) else None;
      PassSealed(s, i + 1, rest, next, parts, cur + [t[0]]);
    }
  }

  lemma {:induction false} SealedConcat(a: string, b: string, quote: Option<char>)
    requires Sealed(a, quote) && Sealed(b, None)
    ensures Sealed(a + b, quote)
    decreases |a|
  {
    if a == [] {
      assert a + b == b;
    } else {
      assert (a + b)[1..] == a[1..] + b && (a + b)[0] == a[0];
      var next := if quote.Some? then (if a[0] == quote.value then None else quote)
                  else if a[0] == '"' || a[0] == '\'' then Some(a[0]) else None;
      SealedConcat(a[1..], b, next);
    }
  }

  /** A word with nothing special in it. */
  predicate FlowPlain(t: string) {
    NoQuotes(t) && forall i :: 0 <= i < |t| ==> !IsFlowMark(t[i])
  }

  lemma {:induction false} SealedPlain(t: string)
    requires FlowPlain(t)
    ensures Sealed(t, None)
  {
    if t != [] {
      assert forall i :: 0 <= i < |t| - 1 ==> t[1..][i] == t[i + 1];
      SealedPlain(t[1..]);
    }
  }

  lemma {:induction false} SealedSingle(v: string)
    ensures Sealed(Doubled(v) + "'", Some('\''))
  {
    var t := Doubled(v) + "'";
    if v == [] {
      assert t[1..] == "";
    } else {
      SealedSingle(v[1..]);
      var rest := Doubled(v[1..]) + "'";
      if v[0] == '\'' {
        assert t[1..] == ['\''] + rest && t[1..][1..] == rest;
      } else {
        assert t[1..] == rest;
      }
    }
  }

  lemma {:induction false} SealedDouble(v: string)
    requires '"' !in v
    ensures Sealed(Escaped(v) + ['"'], Some('"'))
  {
    var t := Escaped(v) + ['"'];
    if v == [] {
      assert t[1..] == "";
    } else {
      SealedDouble(v[1..]);
      var rest := Escaped(v[1..]) + ['"'];
      assert t == EscapedChar(v[0]) + rest;
      if |EscapedChar(v[0])| == 2 {
        assert t[1..] == [t[1]] + rest && t[1..][1..] == rest;
      } else {
        assert t[1..] == rest;
      }
    }
  }

  /** A scalar a flow collection can hold: without marks or quotes, or in quotes, and then without `"` inside
      double quotes, which end at an escaped one. */
  predicate FlowScalar(v: string, quote: Quote) {
    match quote
    case Plain => FlowPlain(v) && v != []
    case Single => true
    case Double => '"' !in v
  }

  lemma ScalarSealed(v: string, quote: Quote)
    requires FlowScalar(v, quote)
    ensures Sealed(ScalarText(v, quote), None)
  {
    var s := ScalarText(v, quote);
    match quote
    case Plain => SealedPlain(v);
    case Single =>
      SealedSingle(v);
      assert s[1..] == Doubled(v) + "'";
    case Double =>
      SealedDouble(v);
      assert s[1..] == Escaped(v) + ['"'];
  }

  /** `a, b, c`. */
  function Commas(parts: seq<string>): string
    requires parts != []
  {
    parts[0] + (if |parts| == 1 then "" else ", " + Commas(parts[1..]))
  }

  /** A part of a flow collection as it is found again. */
  ghost predicate IsPart(t: string) {
    t != [] && !IsSpace(t[0]) && !IsSpace(t[|t| - 1]) && Sealed(t, None)
  }

  lemma StripPart(t: string, lead: string)
    requires IsPart(t) && (lead == "" || lead == " ")
    ensures Strip(lead + t) == t
  {
    hide Sealed;
    assert LStrip(t) == t && RStrip(t) == t;
    if lead == "" {
      assert lead + t == t;
    } else {
      assert (lead + t)[1..] == t && (lead + t)[0] == ' ' && IsSpace(' ');
    }
  }

  /** The parts of a flow collection, with the last still open. */
  lemma {:induction false} ScanParts(s: string, i: nat, done: seq<string>, lead: string, parts: seq<string>)
    requires parts != [] && (forall k :: 0 <= k < |parts| ==> IsPart(parts[k])) && (lead == "" || lead == " ")
    requires i + |Commas(parts)| + 1 == |s| && s[i..|s| - 1] == Commas(parts) && (s[|s| - 1] == ']' || s[|s| - 1] == '}')
    ensures var (ps, cur, end) := FlowScan(s, i, 1, None, done, lead);
      end == Some(|s| - 1) && ps + [Strip(cur)] == done + parts && Strip(cur) == parts[|parts| - 1]
    decreases |parts|
  {
    hide IsSpace, Sealed, Strip;
    var t := parts[0];
    var n := |s| - 1;
    assert s[i..i + |t|] == t by { assert Commas(parts)[..|t|] == t && s[i..n][..|t|] == s[i..i + |t|]; }
    assert Sealed(t, None);
    PassSealed(s, i, t, None, done, lead);
    StripPart(t, lead);
    var j := i + |t|;
    if |parts| == 1 {
      assert j == n;
      assert FlowScan(s, j, 1, None, done, lead + t) == (done, lead + t, Some(n));
      assert done + [t] == done + parts;
    } else {
      var rest := Commas(parts[1..]);
      var tail := s[i..n];
      assert tail == t + (", " + rest);
      assert s[j] == tail[|t|] == ',' && s[j + 1] == tail[|t| + 1] == ' ';
      assert s[j + 2..n] == tail[|t| + 2..] == rest;
      CommaStep(s, j, done, lead + t);
      ScanParts(s, j + 2, done + [t], " ", parts[1..]);
      assert done + [t] + parts[1..] == done + parts;
    }
  }

  lemma CommaStep(s: string, j: nat, parts: seq<string>, cur: string)
    requires j + 2 <= |s| && s[j] == ',' && s[j + 1] == ' '
    ensures FlowScan(s, j, 1, None, parts, cur) == FlowScan(s, j + 2, 1, None, parts + [Strip(cur)], " ")
  {
    hide Strip;
    assert FlowScan(s, j, 1, None, parts, cur) == FlowScan(s, j + 1, 1, None, parts + [Strip(cur)], "");
    assert "" + [' '] == " ";
  }

  function FlowText(parts: seq<string>, braces: bool): string
    requires parts != []
  {
    if braces then "{" + Commas(parts) + "}" else "[" + Commas(parts) + "]"
  }

  /** `[a, b]` and `{a, b}` are taken apart into the parts they were put together from. */
  lemma {:induction false} FlowReads(parts: seq<string>, braces: bool, no: nat)
    requires parts != [] && forall k :: 0 <= k < |parts| ==> IsPart(parts[k])
    ensures FlowText(parts, braces) != [] && (FlowText(parts, braces)[0] == '[' || FlowText(parts, braces)[0] == '{')
    ensures !braces && FlowItems(parts, no).Ok? ==>
      Flow(FlowText(parts, braces), no) == Ok(Node(no, None, None, None, SeqNode, [], FlowItems(parts, no).value, 0))
    ensures braces && FlowEntries(parts, no).Ok? ==>
      Flow(FlowText(parts, braces), no) == Ok(Node(no, None, None, None, MapNode, FlowEntries(parts, no).value, [], 0))
  {
    hide IsSpace, Sealed, Strip, FlowEntries, FlowItems;
    var s := FlowText(parts, braces);
    assert s[1..|s| - 1] == Commas(parts);
    assert FlowScan(s, 0, 0, None, [], "") == FlowScan(s, 1, 1, None, [], "");
    ScanParts(s, 1, [], "", parts);
    assert [] + parts == parts;
    assert s[|s|..] == "";
    StripNothing();
    assert parts[|parts| - 1] != [];
  }

  lemma StripNothing()
    ensures Strip("") == ""
  {
  }
}
