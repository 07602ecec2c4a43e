/** Sequences as Python lists: filters, stable sorting, and minima of key sets. */
module Sequences {

  /** `[x for x in s if keep(x)]`. */
  function Filter<T>(s: seq<T>, keep: T -> bool): (r: seq<T>)
    ensures forall x :: x in r ==> x in s && keep(x)
    ensures forall x :: x in s && keep(x) ==> x in r
    ensures |r| <= |s|
  {
    if s == [] then []
    else
      assert s == [s[0]] + s[1..];
      (if keep(s[0]) then [s[0]] else []) + Filter(s[1..], keep)
  }

  lemma FilterUnfold<T>(s: seq<T>, keep: T -> bool)
    ensures s == [] ==> Filter(s, keep) == []
    ensures s != [] ==> Filter(s, keep) == (if keep(s[0]) then [s[0]] else []) + Filter(s[1..], keep)
  {
  }

  lemma ConcatTail<T>(a: seq<T>, b: seq<T>)
    ensures a == [] ==> a + b == b
    ensures a != [] ==> (a + b)[0] == a[0] && (a + b)[1..] == a[1..] + b
  {
  }

  lemma {:induction false} FilterConcat<T>(a: seq<T>, b: seq<T>, keep: T -> bool)
    ensures Filter(a + b, keep) == Filter(a, keep) + Filter(b, keep)
  {
    hide Filter;
    ConcatTail(a, b);
    FilterUnfold(a, keep);
    if a != [] {
      FilterUnfold(a + b, keep);
      FilterConcat(a[1..], b, keep);
    }
  }

  lemma FilterOne<T>(x: T, keep: T -> bool)
    ensures Filter([x], keep) == if keep(x) then [x] else []
  {
  }

  lemma FilterStep<T>(s: seq<T>, i: nat, keep: T -> bool)
    requires i < |s|
    ensures Filter(s[..i + 1], keep) == Filter(s[..i], keep) + (if keep(s[i]) then [s[i]] else [])
    ensures Filter(s, keep) == Filter(s[..i], keep) + (if keep(s[i]) then [s[i]] else []) + Filter(s[i + 1..], keep)
  {
    hide Filter;
    SplitAt(s, i);
    TakeNext(s, i);
    FilterOne(s[i], keep);
    FilterConcat(s[..i], [s[i]], keep);
    FilterConcat(s[..i + 1], s[i + 1..], keep);
  }

  lemma TakeNext<T>(s: seq<T>, i: nat)
    requires i < |s|
    ensures s[..i + 1] == s[..i] + [s[i]] && s == s[..i + 1] + s[i + 1..]
  {
  }

  lemma {:induction false} FilterAll<T>(s: seq<T>, keep: T -> bool)
    requires forall x :: x in s ==> keep(x)
    ensures Filter(s, keep) == s
  {
    hide Filter;
    FilterUnfold(s, keep);
    if s != [] {
      assert s[0] in s && s == [s[0]] + s[1..];
      FilterAll(s[1..], keep);
    }
  }

  lemma {:induction false} FilterNone<T>(s: seq<T>, keep: T -> bool)
    requires forall x :: x in s ==> !keep(x)
    ensures Filter(s, keep) == []
  {
    hide Filter;
    FilterUnfold(s, keep);
    if s != [] {
      assert s[0] in s;
      FilterNone(s[1..], keep);
    }
  }

  /** `s[:n]`, which is all of `s` when it is shorter. */
  function Take<T>(s: seq<T>, n: nat): seq<T> {
    if |s| <= n then s else s[..n]
  }

  /** `s` without its element at `i`. */
  function Drop<T>(s: seq<T>, i: nat): seq<T>
    requires i < |s|
  {
    s[..i] + s[i + 1..]
  }

  lemma SplitAt<T>(s: seq<T>, i: nat)
    requires i < |s|
    ensures s == s[..i] + ([s[i]] + s[i + 1..])
  {
  }

  lemma DropMembers<T>(s: seq<T>, i: nat)
    requires i < |s|
    ensures multiset(s) == multiset{s[i]} + multiset(Drop(s, i))
    ensures forall x :: x in Drop(s, i) ==> x in s
  {
    SplitAt(s, i);
  }

  lemma CancelMember<T>(x: T, a: multiset<T>, b: multiset<T>)
    requires multiset{x} + a == multiset{x} + b
    ensures a == b
  {
    assert a == (multiset{x} + a) - multiset{x};
    assert b == (multiset{x} + b) - multiset{x};
  }

  lemma CancelSubset<T>(x: T, a: multiset<T>, b: multiset<T>)
    requires multiset{x} + a <= multiset{x} + b
    ensures a <= b
  {
    assert (multiset{x} + a) - multiset{x} == a;
    assert (multiset{x} + b) - multiset{x} == b;
  }

  /** A total preorder: what a sort key that compares any two elements gives. */
  ghost predicate TotalPreorder<T(!new)>(leq: (T, T) -> bool) {
    && (forall x, y :: leq(x, y) || leq(y, x))
    && (forall x, y, z :: leq(x, y) && leq(y, z) ==> leq(x, z))
  }

  ghost predicate SortedBy<T>(s: seq<T>, leq: (T, T) -> bool) {
    forall i, j :: 0 <= i < j < |s| ==> leq(s[i], s[j])
  }

  /** Puts `x` before the first element that does not have to precede it. */
  function Insert<T>(x: T, s: seq<T>, leq: (T, T) -> bool): (r: seq<T>)
    ensures multiset(r) == multiset{x} + multiset(s)
    ensures |r| == |s| + 1
  {
    if s == [] then [x]
    else if leq(x, s[0]) then [x] + s
    else
      assert s == [s[0]] + s[1..];
      [s[0]] + Insert(x, s[1..], leq)
  }

  /** The stable sort of `s`: elements that compare equal keep their order. */
  function Sort<T>(s: seq<T>, leq: (T, T) -> bool): (r: seq<T>)
    ensures multiset(r) == multiset(s)
    ensures |r| == |s|
  {
    if s == [] then []
    else
      assert s == [s[0]] + s[1..];
      Insert(s[0], Sort(s[1..], leq), leq)
  }

  lemma {:induction false} InsertSorted<T(!new)>(x: T, s: seq<T>, leq: (T, T) -> bool)
    requires TotalPreorder(leq) && SortedBy(s, leq)
    ensures SortedBy(Insert(x, s, leq), leq)
  {
    if s == [] || leq(x, s[0]) {
    } else {
      InsertSorted(x, s[1..], leq);
      var t := Insert(x, s[1..], leq);
      forall k | 0 <= k < |t|
        ensures leq(s[0], t[k])
      {
        assert t[k] in multiset(t);
        assert t[k] == x || t[k] in s[1..];
      }
    }
  }

  lemma {:induction false} SortSorted<T(!new)>(s: seq<T>, leq: (T, T) -> bool)
    requires TotalPreorder(leq)
    ensures SortedBy(Sort(s, leq), leq)
  {
    if s != [] {
      SortSorted(s[1..], leq);
      InsertSorted(s[0], Sort(s[1..], leq), leq);
    }
  }

  lemma SortMembers<T>(s: seq<T>, leq: (T, T) -> bool)
    ensures forall x :: x in Sort(s, leq) <==> x in s
  {
    forall x
      ensures x in Sort(s, leq) <==> x in s
    {
      assert x in multiset(Sort(s, leq)) <==> x in multiset(s);
    }
  }

  /** Every two positions of `s` are related. */
  ghost predicate Pairwise<T>(s: seq<T>, rel: (T, T) -> bool) {
    forall i, j :: 0 <= i < j < |s| ==> rel(s[i], s[j])
  }

  lemma PairwiseWitness<T>(s: seq<T>, rel: (T, T) -> bool)
    requires Pairwise(s, rel)
    ensures |s| > 1 ==> exists x, y :: x in s && y in s && rel(x, y)
  {
    if |s| > 1 {
      assert s[0] in s && s[1] in s && rel(s[0], s[1]);
    }
  }

  /** Two elements that pass a test only one element passes are one. */
  lemma FilterSingle<T>(s: seq<T>, keep: T -> bool, x: T, y: T)
    requires |Filter(s, keep)| == 1 && x in s && y in s && keep(x) && keep(y)
    ensures x == y
  {
    hide Filter;
    var f := Filter(s, keep);
    assert x in f && y in f;
    assert f == [f[0]];
  }

  /** If the elements that pass are pairwise related but never to themselves, and all equal, there is one. */
  lemma FilterExactlyOne<T>(s: seq<T>, keep: T -> bool, rel: (T, T) -> bool, x: T)
    requires Pairwise(s, rel) && x in s && keep(x)
    requires forall y :: y in s && keep(y) ==> !rel(x, y) && !rel(y, x)
    requires forall y, z :: y in s && z in s && keep(y) && keep(z) ==> !rel(y, z)
    ensures |Filter(s, keep)| == 1
  {
    hide Filter;
    FilterPairwise(s, keep, rel);
    PairwiseWitness(Filter(s, keep), rel);
    assert x in Filter(s, keep);
  }

  lemma {:induction false} FilterPairwise<T>(s: seq<T>, keep: T -> bool, rel: (T, T) -> bool)
    requires Pairwise(s, rel)
    ensures Pairwise(Filter(s, keep), rel)
  {
    if s != [] {
      FilterPairwise(s[1..], keep, rel);
      assert forall x :: x in s[1..] ==> rel(s[0], x);
    }
  }

  lemma {:induction false} InsertPairwise<T(!new)>(x: T, s: seq<T>, leq: (T, T) -> bool, rel: (T, T) -> bool)
    requires forall a, b :: rel(a, b) ==> rel(b, a)
    requires Pairwise(s, rel) && forall k :: 0 <= k < |s| ==> rel(x, s[k])
    ensures Pairwise(Insert(x, s, leq), rel)
  {
    if s == [] || leq(x, s[0]) {
    } else {
      InsertPairwise(x, s[1..], leq, rel);
      var t := Insert(x, s[1..], leq);
      forall k | 0 <= k < |t|
        ensures rel(s[0], t[k])
      {
        assert t[k] in multiset(t);
        assert t[k] == x || t[k] in s[1..];
      }
    }
  }

  /** Sorting keeps a symmetric relation between every two elements. */
  lemma {:induction false} SortPairwise<T(!new)>(s: seq<T>, leq: (T, T) -> bool, rel: (T, T) -> bool)
    requires forall a, b :: rel(a, b) ==> rel(b, a)
    requires Pairwise(s, rel)
    ensures Pairwise(Sort(s, leq), rel)
  {
    if s != [] {
      SortPairwise(s[1..], leq, rel);
      SortMembers(s[1..], leq);
      forall k | 0 <= k < |s| - 1
        ensures rel(s[0], Sort(s[1..], leq)[k])
      {
        assert Sort(s[1..], leq)[k] in s[1..];
      }
      InsertPairwise(s[0], Sort(s[1..], leq), leq, rel);
    }
  }

  /** Some element of a set that has one. */
  ghost function AnyOf<T>(s: set<T>): (x: T)
    requires s != {}
    ensures x in s
  {
    var x :| x in s;
    x
  }

  ghost function AnyCommon<T>(a: set<T>, b: set<T>): (x: T)
    requires !(a !! b)
    ensures x in a && x in b
  {
    var x :| x in a && x in b;
    x
  }

  lemma SameElements(a: set<int>, b: set<int>)
    requires forall x :: x in a <==> x in b
    ensures a == b
  {
    if a - b != {} {
      var x := AnyOf(a - b);
    }
    if b - a != {} {
      var x := AnyOf(b - a);
    }
    assert a == (a - b) + a * b && b == (b - a) + a * b;
  }

  lemma {:induction false} MinExists(s: set<int>) returns (m: int)
    requires s != {}
    ensures m in s && forall y :: y in s ==> m <= y
  {
    var x := AnyOf(s);
    var rest := s - {x};
    m := x;
    if rest != {} {
      var least := MinExists(rest);
      m := if least <= x then least else x;
    }
    assert forall y :: y in s ==> y == x || y in rest;
  }

  /** `min(s)`. */
  function MinKey(s: set<int>): (m: int)
    requires s != {}
    ensures m in s && forall y :: y in s ==> m <= y
  {
    assert exists m :: m in s && forall y :: y in s ==> m <= y by {
      var least := MinExists(s);
    }
    var m :| m in s && forall y :: y in s ==> m <= y;
    m
  }

  /** `sum(f(x) for x in s)`. */
  function SumBy<T>(s: seq<T>, f: T -> int): int {
    if s == [] then 0 else SumBy(s[..|s| - 1], f) + f(s[|s| - 1])
  }

  lemma SumByStep<T>(s: seq<T>, i: nat, f: T -> int)
    requires i < |s|
    ensures SumBy(s[..i + 1], f) == SumBy(s[..i], f) + f(s[i])
  {
    assert s[..i + 1][..i] == s[..i];
  }

  lemma {:induction false} SumByConcat<T>(a: seq<T>, b: seq<T>, f: T -> int)
    ensures SumBy(a + b, f) == SumBy(a, f) + SumBy(b, f)
  {
    if b == [] {
      assert a + b == a;
    } else {
      SumByConcat(a, b[..|b| - 1], f);
      assert (a + b)[..|a + b| - 1] == a + b[..|b| - 1];
    }
  }

  lemma SumByOne<T>(x: T, f: T -> int)
    ensures SumBy([x], f) == f(x)
  {
    assert [x][..0] == [];
  }

  lemma SumByDrop<T>(s: seq<T>, i: nat, f: T -> int)
    requires i < |s|
    ensures SumBy(s, f) == f(s[i]) + SumBy(Drop(s, i), f)
  {
    SplitAt(s, i);
    SumByConcat(s[..i], [s[i]] + s[i + 1..], f);
    SumByConcat([s[i]], s[i + 1..], f);
    SumByConcat(s[..i], s[i + 1..], f);
    SumByOne(s[i], f);
  }

  /** A sum does not depend on the order. */
  lemma {:induction false} SumByMembers<T>(a: seq<T>, b: seq<T>, f: T -> int)
    requires multiset(a) == multiset(b)
    ensures SumBy(a, f) == SumBy(b, f)
    decreases |a|
  {
    hide SumBy;
    if a == [] {
      assert |multiset(b)| == 0;
      assert b == [];
    } else {
      assert a[0] in multiset(b);
      var i :| 0 <= i < |b| && b[i] == a[0];
      DropMembers(a, 0);
      DropMembers(b, i);
      CancelMember(a[0], multiset(Drop(a, 0)), multiset(Drop(b, i)));
      SumByDrop(a, 0, f);
      SumByDrop(b, i, f);
      SumByMembers(Drop(a, 0), Drop(b, i), f);
    }
  }

  lemma {:induction false} SumBySame<T>(s: seq<T>, f: T -> int, g: T -> int)
    requires forall x :: x in s ==> f(x) == g(x)
    ensures SumBy(s, f) == SumBy(s, g)
  {
    if s != [] {
      assert s[|s| - 1] in s;
      SumBySame(s[..|s| - 1], f, g);
    }
  }

  lemma FilterDrop<T>(s: seq<T>, i: nat, keep: T -> bool)
    requires i < |s|
    ensures multiset(Filter(s, keep)) == multiset(if keep(s[i]) then [s[i]] else [])
              + multiset(Filter(Drop(s, i), keep))
  {
    hide Filter;
    FilterStep(s, i, keep);
    FilterConcat(s[..i], s[i + 1..], keep);
  }

  /** Reordering a list reorders what a filter keeps. */
  lemma {:induction false} FilterReordered<T>(a: seq<T>, b: seq<T>, keep: T -> bool)
    requires multiset(a) == multiset(b)
    ensures multiset(Filter(a, keep)) == multiset(Filter(b, keep))
    decreases |a|
  {
    hide Filter;
    if a == [] {
      assert |multiset(b)| == 0;
      assert b == [];
    } else {
      assert a[0] in multiset(b);
      var i :| 0 <= i < |b| && b[i] == a[0];
      DropMembers(a, 0);
      DropMembers(b, i);
      CancelMember(a[0], multiset(Drop(a, 0)), multiset(Drop(b, i)));
      FilterDrop(a, 0, keep);
      FilterDrop(b, i, keep);
      FilterReordered(Drop(a, 0), Drop(b, i), keep);
    }
  }

  /** Elements a filter drops may be left out of a sum they add nothing to. */
  lemma {:induction false} SumByFilter<T>(s: seq<T>, keep: T -> bool, f: T -> int)
    requires forall x :: x in s && !keep(x) ==> f(x) == 0
    ensures SumBy(Filter(s, keep), f) == SumBy(s, f)
  {
    hide Filter, SumBy;
    FilterUnfold(s, keep);
    if s != [] {
      assert s[0] in s && s == [s[0]] + s[1..];
      SumByFilter(s[1..], keep, f);
      SumByConcat([s[0]], s[1..], f);
      SumByOne(s[0], f);
      SumByConcat(if keep(s[0]) then [s[0]] else [], Filter(s[1..], keep), f);
      SumByEmpty(f);
    } else {
      SumByEmpty(f);
    }
  }

  lemma SumByEmpty<T>(f: T -> int)
    ensures SumBy([], f) == 0
  {
  }

  lemma SubsetSize<T>(a: set<T>, b: set<T>)
    requires a <= b
    ensures |a| <= |b|
  {
    assert b == a + (b - a);
  }

  /** A filter depends only on what it says of the members. */
  lemma {:induction false} FilterSame<T>(s: seq<T>, keep: T -> bool, keep': T -> bool)
    requires forall x :: x in s ==> keep(x) == keep'(x)
    ensures Filter(s, keep) == Filter(s, keep')
  {
    hide Filter;
    FilterUnfold(s, keep);
    FilterUnfold(s, keep');
    if s != [] {
      assert s[0] in s && forall x :: x in s[1..] ==> x in s;
      FilterSame(s[1..], keep, keep');
    }
  }

  /** Without ties between different members, a list has one sorted order. */
  lemma {:induction false} SortedIsUnique<T>(a: seq<T>, b: seq<T>, leq: (T, T) -> bool)
    requires SortedBy(a, leq) && SortedBy(b, leq) && multiset(a) == multiset(b)
    requires forall x, y :: x in a && y in a && leq(x, y) && leq(y, x) ==> x == y
    ensures a == b
    decreases |a|
  {
    assert |multiset(a)| == |a| && |multiset(b)| == |b|;
    if a != [] {
      SameFirst(a, b, leq);
      SameTails(a, b);
      SortedTail(a, leq);
      SortedTail(b, leq);
      hide SortedBy;
      SortedIsUnique(a[1..], b[1..], leq);
      assert a == [a[0]] + a[1..] && b == [b[0]] + b[1..];
    }
  }

  lemma SameTails<T>(a: seq<T>, b: seq<T>)
    requires multiset(a) == multiset(b) && a != [] && b != [] && a[0] == b[0]
    ensures multiset(a[1..]) == multiset(b[1..]) && forall x :: x in a[1..] ==> x in a
  {
    assert a == [a[0]] + a[1..] && b == [b[0]] + b[1..];
    CancelMember(a[0], multiset(a[1..]), multiset(b[1..]));
  }

  lemma SortedTail<T>(a: seq<T>, leq: (T, T) -> bool)
    requires SortedBy(a, leq) && a != []
    ensures SortedBy(a[1..], leq)
  {
  }

  lemma SameFirst<T>(a: seq<T>, b: seq<T>, leq: (T, T) -> bool)
    requires SortedBy(a, leq) && SortedBy(b, leq) && multiset(a) == multiset(b) && a != [] && b != []
    requires forall x, y :: x in a && y in a && leq(x, y) && leq(y, x) ==> x == y
    ensures a[0] == b[0]
  {
    assert a[0] in multiset(b) && b[0] in multiset(a);
    var i :| 0 <= i < |b| && b[i] == a[0];
    var j :| 0 <= j < |a| && a[j] == b[0];
    assert i == 0 || leq(b[0], b[i]);
    assert j == 0 || leq(a[0], a[j]);
  }
}
