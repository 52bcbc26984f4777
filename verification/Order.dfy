/** Python's `sorted` and its order on strings and on lists of strings. */
module Order {

  /** A strict total order. */
  ghost predicate StrictTotal<T(!new)>(lt: (T, T) -> bool) {
    && (forall a :: !lt(a, a))
    && (forall a, b :: lt(a, b) || lt(b, a) || a == b)
    && (forall a, b, c :: lt(a, b) && lt(b, c) ==> lt(a, c))
  }

  /** A strict weak order, as a sort key gives. */
  ghost predicate StrictWeak<T(!new)>(lt: (T, T) -> bool) {
    && (forall a :: !lt(a, a))
    && (forall a, b, c :: lt(a, b) && lt(b, c) ==> lt(a, c))
    && (forall a, b, c :: !lt(a, b) && !lt(b, c) ==> !lt(a, c))
  }

  /** Ascending, repeats allowed. */
  ghost predicate Ascending<T>(lt: (T, T) -> bool, s: seq<T>) {
    forall i, j :: 0 <= i < j < |s| ==> !lt(s[j], s[i])
  }

  /** Strictly ascending: ascending and each element once. */
  ghost predicate StrictlyAscending<T>(lt: (T, T) -> bool, s: seq<T>) {
    forall i, j :: 0 <= i < j < |s| ==> lt(s[i], s[j])
  }

  ghost predicate NoRepeats<T>(s: seq<T>) {
    forall i, j :: 0 <= i < j < |s| ==> s[i] != s[j]
  }

  function Insert<T>(lt: (T, T) -> bool, x: T, s: seq<T>): (r: seq<T>)
    ensures multiset(r) == multiset(s) + multiset{x}
  {
    if s == [] then [x]
    else if lt(s[0], x) then
      assert s == [s[0]] + s[1..];
      [s[0]] + Insert(lt, x, s[1..])
    else [x] + s
  }

  function Sort<T>(lt: (T, T) -> bool, s: seq<T>): (r: seq<T>)
    ensures multiset(r) == multiset(s)
  {
    if s == [] then [] else
      assert s == [s[0]] + s[1..];
      Insert(lt, s[0], Sort(lt, s[1..]))
  }

  lemma SameElements<T>(a: seq<T>, b: seq<T>)
    requires multiset(a) == multiset(b)
    ensures |a| == |b|
    ensures forall x :: x in a <==> x in b
  {
    assert |a| == |multiset(a)| && |b| == |multiset(b)|;
    forall x
      ensures x in a <==> x in b
    {
      assert x in a <==> x in multiset(a);
      assert x in b <==> x in multiset(b);
    }
  }

  lemma {:induction false} InsertAscending<T(!new)>(lt: (T, T) -> bool, x: T, s: seq<T>)
    requires StrictWeak(lt) && Ascending(lt, s)
    ensures Ascending(lt, Insert(lt, x, s))
  {
    if s != [] && lt(s[0], x) {
      InsertAscending(lt, x, s[1..]);
      var t := Insert(lt, x, s[1..]);
      forall i, j | 0 <= i < j < |t| + 1
        ensures !lt(([s[0]] + t)[j], ([s[0]] + t)[i])
      {
        if i == 0 {
          assert t[j - 1] in multiset(t);
          assert t[j - 1] == x || t[j - 1] in s[1..];
        }
      }
    }
  }

  /** `sorted` sorts. */
  lemma {:induction false} SortAscending<T(!new)>(lt: (T, T) -> bool, s: seq<T>)
    requires StrictWeak(lt)
    ensures Ascending(lt, Sort(lt, s))
  {
    if s != [] {
      SortAscending(lt, s[1..]);
      InsertAscending(lt, s[0], Sort(lt, s[1..]));
    }
  }

  /** Sorting a list without repeats gives the strictly ascending list of its elements. */
  lemma {:induction false} SortStrict<T(!new)>(lt: (T, T) -> bool, s: seq<T>)
    requires StrictTotal(lt) && NoRepeats(s)
    ensures StrictlyAscending(lt, Sort(lt, s)) && |Sort(lt, s)| == |s|
    ensures forall x :: x in Sort(lt, s) <==> x in s
  {
    var r := Sort(lt, s);
    SortAscending(lt, s);
    SameElements(r, s);
    MultiplicityOne(s);
    forall i, j | 0 <= i < j < |r|
      ensures lt(r[i], r[j])
    {
      if r[i] == r[j] {
        TwiceCounts(r, i, j);
      }
    }
  }

  lemma {:induction false} MultiplicityOne<T>(s: seq<T>)
    requires NoRepeats(s)
    ensures forall x :: multiset(s)[x] <= 1
  {
    if s != [] {
      assert s == [s[0]] + s[1..];
      MultiplicityOne(s[1..]);
      assert s[0] !in s[1..];
    }
  }

  lemma TwiceCounts<T>(s: seq<T>, i: int, j: int)
    requires 0 <= i < j < |s| && s[i] == s[j]
    ensures multiset(s)[s[i]] >= 2
  {
    assert s == s[..j] + [s[j]] + s[j + 1..];
    assert s[..j][i] == s[i];
    assert multiset(s) == multiset(s[..j]) + multiset{s[j]} + multiset(s[j + 1..]);
  }

  lemma ReversedElements<T>(a: seq<T>, b: seq<T>)
    requires |a| == |b| && forall i :: 0 <= i < |a| ==> a[i] == b[|b| - 1 - i]
    ensures forall x :: x in a <==> x in b
  {
    assert forall i :: 0 <= i < |b| ==> b[i] == a[|a| - 1 - i];
  }

  lemma SomeElement<T>(s: seq<T>)
    ensures s != [] ==> exists x :: x in s
  {
    if s != [] { assert s[0] in s; }
  }

  /** Two strictly ascending lists with the same elements are equal. */
  lemma {:induction false} StrictlyAscendingUnique<T(!new)>(lt: (T, T) -> bool, a: seq<T>, b: seq<T>)
    requires StrictTotal(lt) && StrictlyAscending(lt, a) && StrictlyAscending(lt, b)
    requires forall x :: x in a <==> x in b
    ensures a == b
  {
    SomeElement(b);
    if a != [] {
      assert a[0] in b && b[0] in a;
      assert a[0] == b[0];
      forall x
        ensures x in a[1..] <==> x in b[1..]
      {
        assert a == [a[0]] + a[1..] && b == [b[0]] + b[1..];
        assert a[0] !in a[1..] && b[0] !in b[1..];
        assert x in a <==> x == a[0] || x in a[1..];
        assert x in b <==> x == b[0] || x in b[1..];
      }
      StrictlyAscendingUnique(lt, a[1..], b[1..]);
      assert a == [a[0]] + a[1..] && b == [b[0]] + b[1..];
    }
  }

  /** Python's lexicographic order on sequences. */
  predicate LexLess<T(==)>(lt: (T, T) -> bool, a: seq<T>, b: seq<T>) {
    b != [] && (a == [] || lt(a[0], b[0]) || (a[0] == b[0] && LexLess(lt, a[1..], b[1..])))
  }

  lemma {:induction false} LexIrreflexive<T(!new)>(lt: (T, T) -> bool, a: seq<T>)
    requires StrictTotal(lt)
    ensures !LexLess(lt, a, a)
  {
    if a != [] { LexIrreflexive(lt, a[1..]); }
  }

  lemma {:induction false} LexTotal<T(!new)>(lt: (T, T) -> bool, a: seq<T>, b: seq<T>)
    requires StrictTotal(lt)
    ensures LexLess(lt, a, b) || LexLess(lt, b, a) || a == b
  {
    if a != [] && b != [] && a[0] == b[0] {
      LexTotal(lt, a[1..], b[1..]);
      assert a == [a[0]] + a[1..] && b == [b[0]] + b[1..];
    }
  }

  lemma {:induction false} LexTransitive<T(!new)>(lt: (T, T) -> bool, a: seq<T>, b: seq<T>, c: seq<T>)
    requires StrictTotal(lt) && LexLess(lt, a, b) && LexLess(lt, b, c)
    ensures LexLess(lt, a, c)
  {
    if a != [] && a[0] == b[0] && b[0] == c[0] {
      LexTransitive(lt, a[1..], b[1..], c[1..]);
    }
  }

  const CharLess: (char, char) -> bool := (a, b) => a < b

  /** Strings by code point. */
  const NameLess: (string, string) -> bool := (a, b) => LexLess(CharLess, a, b)

  /** Lists of strings. */
  const ListLess: (seq<string>, seq<string>) -> bool := (a, b) => LexLess(NameLess, a, b)

  lemma NameLessTotal()
    ensures StrictTotal(NameLess)
  {
    assert StrictTotal(CharLess);
    forall a { LexIrreflexive(CharLess, a); }
    forall a, b { LexTotal(CharLess, a, b); }
    forall a, b, c | NameLess(a, b) && NameLess(b, c) { LexTransitive(CharLess, a, b, c); }
  }

  lemma ListLessTotal()
    ensures StrictTotal(ListLess)
  {
    NameLessTotal();
    forall a { LexIrreflexive(NameLess, a); }
    forall a, b { LexTotal(NameLess, a, b); }
    forall a, b, c | ListLess(a, b) && ListLess(b, c) { LexTransitive(NameLess, a, b, c); }
  }
}
