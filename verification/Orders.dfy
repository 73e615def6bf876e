/** Orders and sorting, as Python's `sorted` uses them: strings by code point,
    tuples and lists lexicographically. */
module Orders {

  ghost predicate StrictOrder<T(!new)>(lt: (T, T) -> bool) {
    && (forall x :: !lt(x, x))
    && (forall x, y, z :: lt(x, y) && lt(y, z) ==> lt(x, z))
    && (forall x, y :: lt(x, y) || x == y || lt(y, x))
  }

  predicate Lex<T(==)>(lt: (T, T) -> bool, a: seq<T>, b: seq<T>) {
    if b == [] then false
    else if a == [] then true
    else lt(a[0], b[0]) || (a[0] == b[0] && Lex(lt, a[1..], b[1..]))
  }

  predicate CharLess(a: char, b: char) { a < b }

  predicate StrLess(a: string, b: string) { Lex(CharLess, a, b) }

  predicate PathLess(a: seq<string>, b: seq<string>) { Lex(StrLess, a, b) }

  lemma {:induction false} LexIrreflexive<T(!new)>(lt: (T, T) -> bool, a: seq<T>)
    requires StrictOrder(lt)
    ensures !Lex(lt, a, a)
  {
    if a != [] { LexIrreflexive(lt, a[1..]); }
  }

  lemma {:induction false} LexTotal<T(!new)>(lt: (T, T) -> bool, a: seq<T>, b: seq<T>)
    requires StrictOrder(lt)
    ensures Lex(lt, a, b) || a == b || Lex(lt, b, a)
  {
    if a != [] && b != [] && a[0] == b[0] {
      LexTotal(lt, a[1..], b[1..]);
      assert a == [a[0]] + a[1..] && b == [b[0]] + b[1..];
    }
  }

  lemma {:induction false} LexTransitive<T(!new)>(lt: (T, T) -> bool, a: seq<T>, b: seq<T>, c: seq<T>)
    requires StrictOrder(lt) && Lex(lt, a, b) && Lex(lt, b, c)
    ensures Lex(lt, a, c)
  {
    if a != [] && a[0] == b[0] && b[0] == c[0] { LexTransitive(lt, a[1..], b[1..], c[1..]); }
  }

  /** The order Python gives strings is a strict total order. */
  lemma StrOrder()
    ensures StrictOrder(StrLess)
  {
    forall x: string ensures !StrLess(x, x) { LexIrreflexive(CharLess, x); }
    forall x, y, z | StrLess(x, y) && StrLess(y, z) ensures StrLess(x, z) { LexTransitive(CharLess, x, y, z); }
    forall x, y ensures StrLess(x, y) || x == y || StrLess(y, x) { LexTotal(CharLess, x, y); }
  }

  lemma StrAsymmetric(a: string, b: string)
    ensures !(StrLess(a, b) && StrLess(b, a))
  {
    StrOrder();
  }

  lemma PathOrder()
    ensures StrictOrder(PathLess)
  {
    StrOrder();
    forall x: seq<string> ensures !PathLess(x, x) { LexIrreflexive(StrLess, x); }
    forall x, y, z | PathLess(x, y) && PathLess(y, z) ensures PathLess(x, z) { LexTransitive(StrLess, x, y, z); }
    forall x, y ensures PathLess(x, y) || x == y || PathLess(y, x) { LexTotal(StrLess, x, y); }
  }

  /** Strictly increasing, so also free of repeats. */
  ghost predicate Increasing<T>(lt: (T, T) -> bool, s: seq<T>) {
    forall i, j :: 0 <= i < j < |s| ==> lt(s[i], s[j])
  }

  ghost predicate Distinct<T>(s: seq<T>) {
    forall i, j :: 0 <= i < j < |s| ==> s[i] != s[j]
  }

  lemma HasHead<T>(s: seq<T>)
    ensures s == [] || exists x :: x in s
  {
    if s != [] { assert s[0] in s; }
  }

  lemma HeadFirst<T>(lt: (T, T) -> bool, s: seq<T>, x: T)
    requires Increasing(lt, s) && x in s
    ensures s != [] && (x == s[0] || lt(s[0], x))
  {
  }

  /** Two increasing sequences over the same elements are one sequence: sorting is a normal form. */
  lemma {:induction false} IncreasingUnique<T(!new)>(lt: (T, T) -> bool, a: seq<T>, b: seq<T>)
    requires forall x, y :: lt(x, y) ==> !lt(y, x)
    requires Increasing(lt, a) && Increasing(lt, b)
    requires forall x :: x in a <==> x in b
    ensures a == b
  {
    if a == [] {
      HasHead(b);
    } else {
      assert a[0] in b;
      HeadFirst(lt, b, a[0]);
      assert b[0] in a;
      HeadFirst(lt, a, b[0]);
      forall x ensures x in a[1..] <==> x in b[1..] {
        if x in a[1..] {
          var k :| 0 <= k < |a| - 1 && a[1..][k] == x;
          assert a[k + 1] == x && lt(a[0], x) && x in b;
          var m :| 0 <= m < |b| && b[m] == x;
          assert m > 0;
          assert b[1..][m - 1] == x;
        }
        if x in b[1..] {
          var k :| 0 <= k < |b| - 1 && b[1..][k] == x;
          assert b[k + 1] == x && lt(b[0], x) && x in a;
          var m :| 0 <= m < |a| && a[m] == x;
          assert m > 0;
          assert a[1..][m - 1] == x;
        }
      }
      IncreasingUnique(lt, a[1..], b[1..]);
      assert a == [a[0]] + a[1..] && b == [b[0]] + b[1..];
    }
  }

  function Insert<T>(lt: (T, T) -> bool, x: T, s: seq<T>): (r: seq<T>)
    ensures multiset(r) == multiset(s) + multiset{x}
  {
    if s == [] || !lt(s[0], x) then [x] + s
    else
      assert s == [s[0]] + s[1..];
      [s[0]] + Insert(lt, x, s[1..])
  }

  /** `sorted`: insertion sort, stable. */
  function Sort<T>(lt: (T, T) -> bool, s: seq<T>): (r: seq<T>)
    ensures multiset(r) == multiset(s)
  {
    if s == [] then []
    else
      assert s == [s[0]] + s[1..];
      Insert(lt, s[0], Sort(lt, s[1..]))
  }

  lemma {:induction false} SameElements<T>(a: seq<T>, b: seq<T>, x: T)
    requires multiset(a) == multiset(b)
    ensures x in a <==> x in b
  {
    assert x in a <==> x in multiset(a);
    assert x in b <==> x in multiset(b);
  }

  lemma {:induction false} InsertIncreasing<T(!new)>(lt: (T, T) -> bool, x: T, s: seq<T>)
    requires forall a, b, c :: lt(a, b) && lt(b, c) ==> lt(a, c)
    requires Increasing(lt, s)
    requires forall y :: y in s ==> lt(x, y) || lt(y, x)
    ensures Increasing(lt, Insert(lt, x, s))
  {
    if s != [] && lt(s[0], x) {
      InsertIncreasing(lt, x, s[1..]);
      var r := Insert(lt, x, s[1..]);
      forall j | 0 <= j < |r| ensures lt(s[0], r[j]) {
        SameElements(r, s[1..] + [x], r[j]);
        assert s[0] in s;
      }
    } else if s != [] {
      forall j | 0 <= j < |s| ensures lt(x, s[j]) { if j > 0 { assert lt(s[0], s[j]); } }
    }
  }

  lemma {:induction false} SortIncreasing<T(!new)>(lt: (T, T) -> bool, s: seq<T>)
    requires forall a, b, c :: lt(a, b) && lt(b, c) ==> lt(a, c)
    requires forall i, j :: 0 <= i < j < |s| ==> lt(s[i], s[j]) || lt(s[j], s[i])
    ensures Increasing(lt, Sort(lt, s))
  {
    if s != [] {
      SortIncreasing(lt, s[1..]);
      forall y | y in Sort(lt, s[1..]) ensures lt(s[0], y) || lt(y, s[0]) {
        SameElements(Sort(lt, s[1..]), s[1..], y);
        var k :| 0 <= k < |s| - 1 && s[1..][k] == y;
        assert s[k + 1] == y;
      }
      InsertIncreasing(lt, s[0], Sort(lt, s[1..]));
    }
  }

  /** Sorting depends on what is listed, not on the order it is listed in. */
  lemma {:induction false} SortCanonical<T(!new)>(lt: (T, T) -> bool, a: seq<T>, b: seq<T>)
    requires forall x, y :: lt(x, y) ==> !lt(y, x)
    requires forall x, y, z :: lt(x, y) && lt(y, z) ==> lt(x, z)
    requires forall i, j :: 0 <= i < j < |a| ==> lt(a[i], a[j]) || lt(a[j], a[i])
    requires forall i, j :: 0 <= i < j < |b| ==> lt(b[i], b[j]) || lt(b[j], b[i])
    requires forall x :: x in a <==> x in b
    ensures Sort(lt, a) == Sort(lt, b)
  {
    SortIncreasing(lt, a);
    SortIncreasing(lt, b);
    forall x ensures x in Sort(lt, a) <==> x in Sort(lt, b) {
      SameElements(Sort(lt, a), a, x);
      SameElements(Sort(lt, b), b, x);
    }
    IncreasingUnique(lt, Sort(lt, a), Sort(lt, b));
  }

  /** `sorted` of names that do not repeat. */
  lemma SortNames(a: seq<string>, b: seq<string>)
    requires Distinct(a) && Distinct(b)
    requires forall x :: x in a <==> x in b
    ensures Sort(StrLess, a) == Sort(StrLess, b)
  {
    StrOrder();
    SortCanonical(StrLess, a, b);
  }

  /** Sorted names without repeats rise strictly. */
  lemma NamesIncreasing(names: seq<string>)
    requires Distinct(names)
    ensures Increasing(StrLess, Sort(StrLess, names))
  {
    StrOrder();
    SortIncreasing(StrLess, names);
  }

  /** Two rising listings of the same names are one. */
  lemma NamesUnique(a: seq<string>, b: seq<string>)
    requires Increasing(StrLess, a) && Increasing(StrLess, b)
    requires forall x :: x in a <==> x in b
    ensures a == b
  {
    forall x, y | StrLess(x, y) ensures !StrLess(y, x) { StrAsymmetric(x, y); }
    IncreasingUnique(StrLess, a, b);
  }

  /** The least string of a set. */
  lemma {:induction false} LeastExists(s: set<string>) returns (m: string)
    requires s != {}
    ensures m in s && forall y :: y in s ==> y == m || StrLess(m, y)
  {
    StrOrder();
    m :| m in s;
    if s != {m} {
      var n := LeastExists(s - {m});
      if StrLess(n, m) { m := n; }
    }
  }

  ghost function Least(s: set<string>): (m: string)
    requires s != {}
    ensures m in s && forall y :: y in s ==> y == m || StrLess(m, y)
  {
    assert exists m :: m in s && forall y :: y in s ==> y == m || StrLess(m, y) by { var m := LeastExists(s); }
    var m :| m in s && forall y :: y in s ==> y == m || StrLess(m, y);
    m
  }

  /** `sorted` of a set of names. */
  ghost function Ascending(s: set<string>): (r: seq<string>)
    ensures forall x :: x in r <==> x in s
    ensures Increasing(StrLess, r)
    ensures |r| == |s|
  {
    if s == {} then []
    else
      var m := Least(s);
      StrOrder();
      assert forall x :: x in s <==> x == m || x in s - {m};
      [m] + Ascending(s - {m})
  }

  lemma IncreasingDistinct(names: seq<string>)
    requires Increasing(StrLess, names)
    ensures Distinct(names)
  {
    forall i, j | 0 <= i < j < |names| ensures names[i] != names[j] { StrAsymmetric(names[i], names[j]); }
  }

  /** `sorted` of a set, by insertion. */
  method Sorted(s: set<string>) returns (r: seq<string>)
    ensures r == Ascending(s)
  {
    r := [];
    var left := s;
    StrOrder();
    while left != {}
      invariant left <= s && Increasing(StrLess, r) && forall x :: x in r <==> x in s - left
    {
      var x :| x in left;
      InsertIncreasing(StrLess, x, r);
      forall y ensures y in Insert(StrLess, x, r) <==> y in s - (left - {x}) {
        SameElements(Insert(StrLess, x, r), r + [x], y);
      }
      r, left := Insert(StrLess, x, r), left - {x};
    }
    NamesUnique(r, Ascending(s));
  }

  /** Sorting the names of a set is listing the set in order. */
  lemma SortIsAscending(names: seq<string>, s: set<string>)
    requires Distinct(names) && forall n :: n in names <==> n in s
    ensures Sort(StrLess, names) == Ascending(s)
  {
    NamesIncreasing(names);
    var sorted, listed := Sort(StrLess, names), Ascending(s);
    forall n ensures n in sorted <==> n in listed { SameElements(sorted, names, n); }
    NamesUnique(sorted, listed);
  }
}
