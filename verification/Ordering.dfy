/**
 Sorting by a total order: the ranking of a finite set is the one sequence that lists the
 set without repetition in increasing order. Stands in for Go's `sort` package.
 */
module Ordering {

  /** Code-point order on strings; byte order on their UTF-8 encodings is the same order. */
  predicate LexLe(a: string, b: string) {
    a == [] || (b != [] && (a[0] < b[0] || (a[0] == b[0] && LexLe(a[1..], b[1..]))))
  }

  ghost predicate TotalOrderOn<T(!new)>(s: set<T>, le: (T, T) -> bool) {
    && (forall x, y :: x in s && y in s ==> le(x, y) || le(y, x))
    && (forall x, y :: x in s && y in s && le(x, y) && le(y, x) ==> x == y)
    && (forall x, y, z :: x in s && y in s && z in s && le(x, y) && le(y, z) ==> le(x, z))
  }

  function Elements<T>(xs: seq<T>): set<T> {
    set x | x in xs
  }

  /** `r` lists exactly `s`, without repetition, in the order `le`. */
  ghost predicate IsRanking<T(!new)>(r: seq<T>, s: set<T>, le: (T, T) -> bool) {
    && (forall x :: x in r <==> x in s)
    && (forall i, j :: 0 <= i < j < |r| ==> le(r[i], r[j]) && r[i] != r[j])
  }

  lemma {:induction false} LexTotal(a: string, b: string)
    ensures LexLe(a, b) || LexLe(b, a)
    ensures LexLe(a, b) && LexLe(b, a) ==> a == b
  {
    if a != [] && b != [] {
      LexTotal(a[1..], b[1..]);
      if a[0] == b[0] && a[1..] == b[1..] {
        assert a == [a[0]] + a[1..] && b == [b[0]] + b[1..];
      }
    }
  }

  lemma {:induction false} LexTrans(a: string, b: string, c: string)
    requires LexLe(a, b) && LexLe(b, c)
    ensures LexLe(a, c)
  {
    if a != [] && a[0] == b[0] == c[0] {
      LexTrans(a[1..], b[1..], c[1..]);
    }
  }

  lemma LexTotalOrder(s: set<string>)
    ensures TotalOrderOn(s, LexLe)
  {
    forall x, y ensures LexLe(x, y) || LexLe(y, x)
                ensures LexLe(x, y) && LexLe(y, x) ==> x == y
    {
      LexTotal(x, y);
    }
    forall x, y, z | LexLe(x, y) && LexLe(y, z) ensures LexLe(x, z) {
      LexTrans(x, y, z);
    }
  }

  lemma {:induction false} LeastExists<T(!new)>(s: set<T>, le: (T, T) -> bool) returns (m: T)
    requires s != {} && TotalOrderOn(s, le)
    ensures m in s && forall y :: y in s ==> le(m, y)
  {
    m :| m in s;
    var rest := s - {m};
    if rest != {} {
      var k := LeastExists(rest, le);
      if !le(m, k) { m := k; }
      assert s == rest + {m} || m == k;
    }
  }

  /** The ranking of `s`: take the least element first. */
  ghost function Ranking<T(!new)>(s: set<T>, le: (T, T) -> bool): (r: seq<T>)
    requires TotalOrderOn(s, le)
    ensures IsRanking(r, s, le)
  {
    if s == {} then [] else
      var m := Least(s, le);
      [m] + Ranking(s - {m}, le)
  }

  ghost function Least<T(!new)>(s: set<T>, le: (T, T) -> bool): (m: T)
    requires s != {} && TotalOrderOn(s, le)
    ensures m in s && forall y :: y in s ==> le(m, y)
  {
    assert exists m :: m in s && forall y :: y in s ==> le(m, y) by {
      var m := LeastExists(s, le);
    }
    var m :| m in s && forall y :: y in s ==> le(m, y);
    m
  }

  lemma RankingEmpty<T(!new)>(r: seq<T>, s: set<T>, le: (T, T) -> bool)
    requires IsRanking(r, s, le)
    ensures r == [] <==> s == {}
  {
    if r != [] { assert r[0] in s; }
  }

  /** A set has only one ranking, so the order in which a sort met the elements cannot show. */
  lemma {:induction false} RankingUnique<T(!new)>(a: seq<T>, b: seq<T>, s: set<T>, le: (T, T) -> bool)
    requires TotalOrderOn(s, le) && IsRanking(a, s, le) && IsRanking(b, s, le)
    ensures a == b
    decreases |a|
  {
    RankingEmpty(a, s, le);
    RankingEmpty(b, s, le);
    if a != [] {
      assert a[0] in b && b != [];
      assert b[0] in a;
      var i :| 0 <= i < |b| && b[i] == a[0];
      var j :| 0 <= j < |a| && a[j] == b[0];
      assert a[0] == b[0];
      var s' := s - {a[0]};
      forall x ensures x in a[1..] <==> x in s' {
        if x in s' { var k :| 0 <= k < |a| && a[k] == x; assert a[1..][k - 1] == x; }
      }
      forall x ensures x in b[1..] <==> x in s' {
        if x in s' { var k :| 0 <= k < |b| && b[k] == x; assert b[1..][k - 1] == x; }
      }
      RankingUnique(a[1..], b[1..], s', le);
      assert a == [a[0]] + a[1..] && b == [b[0]] + b[1..];
    }
  }

  lemma RankedAround<T(!new)>(a: seq<T>, x: T, b: seq<T>, s: set<T>, le: (T, T) -> bool)
    requires x !in s && IsRanking(a + b, s, le)
    requires forall i :: 0 <= i < |a| ==> le(a[i], x)
    requires forall i :: 0 <= i < |b| ==> le(x, b[i])
    ensures IsRanking(a + [x] + b, s + {x}, le)
  {
    var n, ab, r := |a|, a + b, a + [x] + b;
    forall y ensures y in r <==> y in s + {x} {
      assert y in r <==> y in a || y == x || y in b;
      assert y in ab <==> y in a || y in b;
    }
    forall i | 0 <= i < |ab| ensures ab[i] != x { assert ab[i] in s; }
    forall i, j | 0 <= i < j < |r| ensures le(r[i], r[j]) && r[i] != r[j] {
      assert i != n ==> r[i] == ab[if i < n then i else i - 1];
      assert j != n ==> r[j] == ab[if j < n then j else j - 1];
    }
  }

  /** Insertion of `x` into an already ranked sequence. */
  method InsertRanked<T(!new, ==)>(r: seq<T>, x: T, ghost s: set<T>, le: (T, T) -> bool) returns (r': seq<T>)
    requires x !in s && TotalOrderOn(s + {x}, le) && IsRanking(r, s, le)
    ensures IsRanking(r', s + {x}, le)
  {
    var i := 0;
    while i < |r| && le(r[i], x)
      invariant 0 <= i <= |r|
      invariant forall k :: 0 <= k < i ==> le(r[k], x)
    {
      i := i + 1;
    }
    forall k | i <= k < |r| ensures le(x, r[k]) {
      assert r[i] in s && r[k] in s;
      assert le(x, r[i]);
      if i < k { assert le(r[i], r[k]); }
    }
    assert r == r[..i] + r[i..];
    RankedAround(r[..i], x, r[i..], s, le);
    r' := r[..i] + [x] + r[i..];
  }

  /** Sorts a sequence without repetitions; any such sort yields the ranking of its elements. */
  method Sort<T(!new, ==)>(xs: seq<T>, le: (T, T) -> bool) returns (r: seq<T>)
    requires forall i, j :: 0 <= i < j < |xs| ==> xs[i] != xs[j]
    requires TotalOrderOn(Elements(xs), le)
    ensures r == Ranking(Elements(xs), le)
  {
    r := [];
    ghost var s := {};
    var i := 0;
    ghost var all := Elements(xs);
    while i < |xs|
      invariant 0 <= i <= |xs|
      invariant s == Elements(xs[..i])
      invariant IsRanking(r, s, le)
    {
      assert xs[i] !in xs[..i];
      assert xs[..i + 1] == xs[..i] + [xs[i]];
      assert s + {xs[i]} <= all;
      r := InsertRanked(r, xs[i], s, le);
      s := s + {xs[i]};
      i := i + 1;
    }
    assert xs[..i] == xs;
    RankingUnique(r, Ranking(all, le), all, le);
  }

  lemma ElementsSnoc<T>(xs: seq<T>, x: T)
    ensures Elements(xs + [x]) == Elements(xs) + {x}
  {
    assert forall y :: y in xs + [x] <==> y in xs || y == x;
  }

  /** The members of a set of strings in order, whatever order the set yields them in. */
  method SortedStrings(s: set<string>) returns (r: seq<string>)
    ensures IsRanking(r, s, LexLe)
  {
    r := [];
    var rest := s;
    while rest != {}
      invariant rest <= s && Elements(r) == s - rest
      invariant forall i, j :: 0 <= i < j < |r| ==> r[i] != r[j]
    {
      var x :| x in rest;
      assert x !in Elements(r);
      ElementsSnoc(r, x);
      r, rest := r + [x], rest - {x};
    }
    LexTotalOrder(s);
    assert Elements(r) == s;
    r := Sort(r, LexLe);
  }
}
