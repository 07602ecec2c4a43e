/** What the indexed matcher finds, and when it is exact. */
module LegacyProperties {
  import opened Sequences
  import opened SubsetSearch
  import opened LegacySubsets

  // ----- Which tuples are visited

  lemma AfterMember(pool: seq<Item>, y: Item, v: int, z: Item)
    ensures z in After(pool, y, v) <==> z in pool && z.value == v && z.id > y.id
  {
  }

  lemma ExtensionsMember(prefix: seq<Item>, zs: seq<Item>, c: seq<Item>)
    ensures c in Extensions(prefix, zs) <==> |c| == |prefix| + 1 && c[..|prefix|] == prefix && c[|prefix|] in zs
  {
    if |c| == |prefix| + 1 && c[..|prefix|] == prefix && c[|prefix|] in zs {
      var i :| 0 <= i < |zs| && zs[i] == c[|prefix|];
      assert c == Extensions(prefix, zs)[i];
    }
  }

  predicate IsPairVisit(pool: seq<Item>, rest: seq<Item>, target: int, c: seq<Item>) {
    |c| == 2 && c[0] in rest && c[1] in pool && c[1].id > c[0].id && c[0].value + c[1].value == target
  }

  lemma {:induction false} PairsMember(pool: seq<Item>, rest: seq<Item>, target: int, c: seq<Item>)
    ensures c in PairsFrom(pool, rest, target) <==> IsPairVisit(pool, rest, target, c)
  {
    hide Extensions, After, PairsFrom;
    PairsUnfold(pool, rest, target, c);
    if rest != [] {
      PairsMember(pool, rest[1..], target, c);
      FirstPairMember(pool, rest[0], target - rest[0].value, c);
      assert rest == [rest[0]] + rest[1..];
    }
  }

  lemma PairsUnfold(pool: seq<Item>, rest: seq<Item>, target: int, c: seq<Item>)
    ensures rest == [] ==> c !in PairsFrom(pool, rest, target)
    ensures rest != [] ==> (c in PairsFrom(pool, rest, target) <==>
              c in Extensions([rest[0]], After(pool, rest[0], target - rest[0].value))
              || c in PairsFrom(pool, rest[1..], target))
  {
    hide Extensions, After;
  }

  lemma FirstPairMember(pool: seq<Item>, x: Item, v: int, c: seq<Item>)
    ensures c in Extensions([x], After(pool, x, v)) <==>
              |c| == 2 && c[0] == x && c[1] in pool && c[1].id > x.id && c[1].value == v
  {
    hide Extensions, After;
    ExtensionsMember([x], After(pool, x, v), c);
    if |c| == 2 {
      AfterMember(pool, x, v, c[1]);
      assert c[..1] == [c[0]];
    }
  }

  /** A second and third item for a fixed first one. */
  predicate IsThirdVisit(pool: seq<Item>, first: Item, second: Item, target: int, c: seq<Item>) {
    && |c| == 3 && c[0] == first && c[1] == second && c[2] in pool && c[2].id > second.id && c[2].value > 0
    && first.value + second.value + c[2].value == target
  }

  lemma ThirdsOfMember(pool: seq<Item>, first: Item, second: Item, target: int, c: seq<Item>)
    ensures c in ThirdsOf(pool, first, second, target) <==> IsThirdVisit(pool, first, second, target, c)
  {
    hide Extensions, After;
    var remainder := target - first.value - second.value;
    ExtensionsMember([first, second], After(pool, second, remainder), c);
    if |c| == 3 {
      AfterMember(pool, second, remainder, c[2]);
      assert c[..2] == [c[0], c[1]];
    }
  }

  lemma {:induction false} ThirdsMember(pool: seq<Item>, first: Item, rest: seq<Item>, target: int, c: seq<Item>)
    ensures c in ThirdsFrom(pool, first, rest, target) <==>
              exists j :: 0 <= j < |rest| && IsThirdVisit(pool, first, rest[j], target, c)
  {
    hide ThirdsOf, IsThirdVisit;
    if rest != [] {
      ThirdsMember(pool, first, rest[1..], target, c);
      ThirdsOfMember(pool, first, rest[0], target, c);
      if j :| 0 <= j < |rest| && IsThirdVisit(pool, first, rest[j], target, c) {
        assert j == 0 || rest[j] == rest[1..][j - 1];
      }
      if j :| 0 <= j < |rest[1..]| && IsThirdVisit(pool, first, rest[1..][j], target, c) {
        assert rest[j + 1] == rest[1..][j];
      }
    }
  }

  /** First and second are at positions `i < j` of `rest`. */
  ghost predicate IsTripleVisit(pool: seq<Item>, rest: seq<Item>, target: int, c: seq<Item>) {
    exists i, j :: 0 <= i < j < |rest| && IsThirdVisit(pool, rest[i], rest[j], target, c)
  }

  lemma {:induction false} TriplesMember(pool: seq<Item>, rest: seq<Item>, target: int, c: seq<Item>)
    ensures c in TriplesFrom(pool, rest, target) <==> IsTripleVisit(pool, rest, target, c)
  {
    hide IsThirdVisit;
    if rest != [] {
      TriplesMember(pool, rest[1..], target, c);
      ThirdsMember(pool, rest[0], rest[1..], target, c);
      if i, j :| 0 <= i < j < |rest| && IsThirdVisit(pool, rest[i], rest[j], target, c) {
        assert rest[j] == rest[1..][j - 1];
        assert i == 0 || rest[i] == rest[1..][i - 1];
      }
      if i, j :| 0 <= i < j < |rest[1..]| && IsThirdVisit(pool, rest[1..][i], rest[1..][j], target, c) {
        assert rest[i + 1] == rest[1..][i] && rest[j + 1] == rest[1..][j];
      }
      if j :| 0 <= j < |rest[1..]| && IsThirdVisit(pool, rest[0], rest[1..][j], target, c) {
        assert rest[j + 1] == rest[1..][j];
      }
    }
  }

  // ----- Completeness on any pool order

  lemma PairIsVisited(pool: seq<Item>, target: int, x: Item, y: Item)
    requires x in pool && y in pool && x.id < y.id && x.value + y.value == target
    ensures [x, y] in Visits(pool, target)
  {
    PairsMember(pool, pool, target, [x, y]);
  }

  /** Whatever the order, the item with the greatest id can be the third. */
  lemma TripleIsVisited(pool: seq<Item>, target: int, i: nat, j: nat, z: Item)
    requires i < j < |pool| && z in pool && z.id > pool[j].id && z.value > 0
    requires pool[i].value + pool[j].value + z.value == target
    ensures [pool[i], pool[j], z] in Visits(pool, target)
  {
    var c := [pool[i], pool[j], z];
    assert IsThirdVisit(pool, pool[i], pool[j], target, c);
    TriplesMember(pool, pool, target, c);
  }

  lemma PositionOf(pool: seq<Item>, x: Item) returns (i: nat)
    requires x in pool
    ensures i < |pool| && pool[i] == x
  {
    i :| 0 <= i < |pool| && pool[i] == x;
  }

  lemma PairTotal(a: Item, b: Item)
    ensures Total([a, b]) == a.value + b.value
  {
    assert [a, b][1..] == [b] && Total([b]) == b.value;
  }

  lemma TripleTotal(a: Item, b: Item, c: Item)
    ensures Total([a, b, c]) == a.value + b.value + c.value
  {
    assert [a, b, c][1..] == [b, c];
    PairTotal(b, c);
  }

  lemma SelectionTotal(t: seq<Item>)
    requires |t| == 2 || |t| == 3
    ensures |t| == 2 ==> Total(t) == t[0].value + t[1].value && IdSet(t) == {t[0].id, t[1].id}
    ensures |t| == 3 ==> Total(t) == t[0].value + t[1].value + t[2].value && IdSet(t) == {t[0].id, t[1].id, t[2].id}
  {
    hide Total;
    if |t| == 2 {
      assert t == [t[0], t[1]];
      PairTotal(t[0], t[1]);
    } else {
      assert t == [t[0], t[1], t[2]];
      TripleTotal(t[0], t[1], t[2]);
    }
  }

  lemma TripleSetVisited(pool: seq<Item>, target: int, x: Item, y: Item, z: Item)
    requires Positive(pool) && x in pool && y in pool && z in pool && x.id != y.id && x.id < z.id && y.id < z.id
    requires x.value + y.value + z.value == target
    ensures exists c :: c in Visits(pool, target) && IdSet(c) == {x.id, y.id, z.id}
  {
    var i := PositionOf(pool, x);
    var j := PositionOf(pool, y);
    var c := if i < j then [x, y, z] else [y, x, z];
    if i < j {
      TripleIsVisited(pool, target, i, j, z);
    } else {
      TripleIsVisited(pool, target, j, i, z);
    }
    SelectionTotal(c);
  }

  /** No two- or three-term match is missed, whatever the pool order. */
  lemma LegacyMissesNothing(pool: seq<Item>, target: int, t: seq<Item>)
    requires Positive(pool) && IsSelection(pool, target, 0, 2, 3, t)
    ensures exists c :: c in Fresh(Visits(pool, target), {}) && IdSet(c) == IdSet(t)
  {
    hide Visits, Fresh, IdSet, Total;
    SelectionTotal(t);
    var c: seq<Item>;
    if |t| == 2 {
      c := if t[0].id < t[1].id then [t[0], t[1]] else [t[1], t[0]];
      PairIsVisited(pool, target, c[0], c[1]);
      SelectionTotal(c);
    } else {
      var x, y, z := t[0], t[1], t[2];
      if x.id < z.id && y.id < z.id {
        TripleSetVisited(pool, target, x, y, z);
      } else if x.id < y.id && z.id < y.id {
        TripleSetVisited(pool, target, x, z, y);
        assert {x.id, z.id, y.id} == IdSet(t);
      } else {
        TripleSetVisited(pool, target, y, z, x);
        assert {y.id, z.id, x.id} == IdSet(t);
      }
      c :| c in Visits(pool, target) && IdSet(c) == IdSet(t);
    }
    assert IdSet(c) == IdSet(t);
    FreshKeepsOne(Visits(pool, target), {}, c);
  }

  // ----- When a tuple names one settlement twice

  /** Two items out of id order whose nets make the target with the first counted twice. */
  predicate Inverted(pool: seq<Item>, target: int) {
    exists i, j :: 0 <= i < j < |pool| && pool[i].id > pool[j].id && 2 * pool[i].value + pool[j].value == target
  }

  predicate RepeatsId(c: seq<Item>) {
    !DistinctIds(c)
  }

  /** A visited tuple repeats an id exactly when it is an inverted pair with its first item again. */
  lemma RepeatedVisit(pool: seq<Item>, target: int, c: seq<Item>)
    requires DistinctIds(pool) && Positive(pool) && c in Visits(pool, target) && RepeatsId(c)
    ensures Inverted(pool, target)
  {
    hide PairsFrom, TriplesFrom;
    PairsMember(pool, pool, target, c);
    TriplesMember(pool, pool, target, c);
    var i, j :| 0 <= i < j < |pool| && IsThirdVisit(pool, pool[i], pool[j], target, c);
    var k := PositionOf(pool, c[2]);
    assert c == [pool[i], pool[j], c[2]];
    assert k == i;
  }

  lemma InvertedIsVisited(pool: seq<Item>, target: int, i: nat, j: nat)
    requires Positive(pool) && i < j < |pool| && pool[i].id > pool[j].id && 2 * pool[i].value + pool[j].value == target
    ensures [pool[i], pool[j], pool[i]] in Visits(pool, target)
  {
    TripleIsVisited(pool, target, i, j, pool[i]);
  }

  /** A tuple with exactly the two ids of an inverted pair must repeat one of them. */
  lemma TwoIdsRepeat(pool: seq<Item>, target: int, i: nat, j: nat, d: seq<Item>)
    requires DistinctIds(pool) && Positive(pool) && i < j < |pool| && 2 * pool[i].value + pool[j].value == target
    requires d in Visits(pool, target) && IdSet(d) == {pool[i].id, pool[j].id}
    ensures RepeatsId(d)
  {
    hide Visits;
    VisitShape(pool, target, d);
    SelectionTotal(d);
    if |d| == 2 {
      PairFromIds(pool, i, j, d);
    } else {
      assert d[0].id in IdSet(d) && d[1].id in IdSet(d) && d[2].id in IdSet(d);
    }
  }

  lemma VisitShape(pool: seq<Item>, target: int, d: seq<Item>)
    requires d in Visits(pool, target)
    ensures (|d| == 2 || |d| == 3) && Total(d) == target && forall x :: x in d ==> x in pool
  {
    hide PairsFrom, TriplesFrom, Total, IdSet;
    PairsMember(pool, pool, target, d);
    TriplesMember(pool, pool, target, d);
    if IsPairVisit(pool, pool, target, d) {
      assert d == [d[0], d[1]];
      PairTotal(d[0], d[1]);
    } else {
      var i, j :| 0 <= i < j < |pool| && IsThirdVisit(pool, pool[i], pool[j], target, d);
      assert d == [d[0], d[1], d[2]];
      TripleTotal(d[0], d[1], d[2]);
    }
  }

  lemma PairFromIds(pool: seq<Item>, i: nat, j: nat, d: seq<Item>)
    requires DistinctIds(pool) && i < j < |pool| && |d| == 2 && d[0] in pool && d[1] in pool
    requires {d[0].id, d[1].id} == {pool[i].id, pool[j].id}
    ensures d[0].value + d[1].value == pool[i].value + pool[j].value
  {
    var k := PositionOf(pool, d[0]);
    var l := PositionOf(pool, d[1]);
    assert pool[i].id in {d[0].id, d[1].id} && pool[j].id in {d[0].id, d[1].id};
    assert (k == i && l == j) || (k == j && l == i);
  }

  /** The exact condition: the matcher keeps a tuple that names one settlement twice if and only if
      the pool holds an inverted pair. */
  lemma RepeatsExactlyWhenInverted(pool: seq<Item>, target: int)
    requires DistinctIds(pool) && Positive(pool)
    ensures (exists c :: c in Fresh(Visits(pool, target), {}) && RepeatsId(c)) <==> Inverted(pool, target)
  {
    hide Visits, Fresh, RepeatsId;
    if c :| c in Fresh(Visits(pool, target), {}) && RepeatsId(c) {
      RepeatedVisit(pool, target, c);
    }
    if Inverted(pool, target) {
      var i, j :| 0 <= i < j < |pool| && pool[i].id > pool[j].id && 2 * pool[i].value + pool[j].value == target;
      var c := [pool[i], pool[j], pool[i]];
      InvertedIsVisited(pool, target, i, j);
      SelectionTotal(c);
      FreshKeepsOne(Visits(pool, target), {}, c);
      var d :| d in Fresh(Visits(pool, target), {}) && IdSet(d) == IdSet(c);
      assert IdSet(c) == {pool[i].id, pool[j].id};
      TwoIdsRepeat(pool, target, i, j, d);
    }
  }

  /** Without an inverted pair, every kept tuple is a genuine matching selection. */
  lemma LegacyIsSound(pool: seq<Item>, target: int, c: seq<Item>)
    requires DistinctIds(pool) && Positive(pool) && !Inverted(pool, target)
    requires c in Fresh(Visits(pool, target), {})
    ensures IsSelection(pool, target, 0, 2, 3, c)
  {
    hide Visits, Fresh;
    VisitShape(pool, target, c);
    if RepeatsId(c) {
      RepeatedVisit(pool, target, c);
    }
  }

  lemma OutOfOrderAfter(a: Item, b: Item)
    requires a == Item(1, 10) && b == Item(2, 5)
    ensures After([b, a], b, 15) == [] && After([b, a], a, 10) == [] && After([b, a], a, 5) == [b]
  {
    FilterPair(b, a, (x: Item) => x.value == 15);
    FilterPair(b, a, (x: Item) => x.value == 10);
    FilterPair(b, a, (x: Item) => x.value == 5);
    FilterOne(b, (x: Item) => x.id > a.id);
    FilterOne(a, (x: Item) => x.id > a.id);
  }

  lemma OutOfOrderVisits(a: Item, b: Item)
    requires a == Item(1, 10) && b == Item(2, 5)
    ensures Visits([b, a], 20) == [[b, a, b]]
  {
    hide After, Extensions;
    OutOfOrderAfter(a, b);
    calc {
      PairsFrom([b, a], [b, a], 20);
      { assert [b, a][1..] == [a]; }
      Extensions([b], []) + PairsFrom([b, a], [a], 20);
      { assert [a][1..] == []; }
      Extensions([b], []) + (Extensions([a], []) + []);
      [];
    }
    calc {
      TriplesFrom([b, a], [b, a], 20);
      { assert [b, a][1..] == [a]; }
      ThirdsFrom([b, a], b, [a], 20) + TriplesFrom([b, a], [a], 20);
      { assert [a][1..] == []; }
      Extensions([b, a], [b]) + [] + ([] + []);
      { assert [b, a] + [b] == [b, a, b]; }
      [[b, a, b]];
    }
  }

  /** The concrete failure: pool b=5, a=10 and target 20 returns (b, a, b). */
  lemma LegacyRepeatsASettlement()
    ensures var a, b := Item(1, 10), Item(2, 5);
            LegacySubsetsOf([b, a], 20, 2) == Found([[2, 1, 2]])
  {
    hide Visits, IdSet;
    var a, b := Item(1, 10), Item(2, 5);
    OutOfOrderVisits(a, b);
    assert Fresh([[b, a, b]], {}) == [[b, a, b]];
    assert Ids([b, a, b]) == [2, 1, 2];
    assert AllIds([[b, a, b]]) == [[2, 1, 2]];
  }

  lemma FilterPair<T>(x: T, y: T, keep: T -> bool)
    ensures Filter([x, y], keep) == (if keep(x) then [x] else []) + (if keep(y) then [y] else [])
  {
    FilterUnfold([x, y], keep);
    assert [x, y][1..] == [y];
    FilterOne(y, keep);
  }

  // ----- On pools in ascending id order the fast form is the plain enumeration

  predicate Ascending(pool: seq<Item>) {
    forall i, j :: 0 <= i < j < |pool| ==> pool[i].id < pool[j].id
  }

  lemma AfterSplits(pool: seq<Item>, i: nat, v: int)
    requires i < |pool|
    ensures var byValue, later := (x: Item) => x.value == v, (x: Item) => x.id > pool[i].id;
            After(pool, pool[i], v) == Filter(Filter(pool[..i + 1], byValue), later)
              + Filter(Filter(pool[i + 1..], byValue), later)
    ensures WithValue(pool[i + 1..], v) == Filter(pool[i + 1..], (x: Item) => x.value == v)
  {
    var byValue, later := (x: Item) => x.value == v, (x: Item) => x.id > pool[i].id;
    hide Filter;
    TakeNext(pool, i);
    FilterConcat(pool[..i + 1], pool[i + 1..], byValue);
    FilterConcat(Filter(pool[..i + 1], byValue), Filter(pool[i + 1..], byValue), later);
  }

  lemma NoneOfPrefix(pool: seq<Item>, i: nat, byValue: Item -> bool)
    requires Ascending(pool) && i < |pool|
    ensures Filter(Filter(pool[..i + 1], byValue), (x: Item) => x.id > pool[i].id) == []
  {
    hide Filter;
    forall x | x in Filter(pool[..i + 1], byValue)
      ensures x.id <= pool[i].id
    {
      assert x in pool[..i + 1];
    }
    FilterNone(Filter(pool[..i + 1], byValue), (x: Item) => x.id > pool[i].id);
  }

  lemma AllOfSuffix(pool: seq<Item>, i: nat, byValue: Item -> bool)
    requires Ascending(pool) && i < |pool|
    ensures Filter(Filter(pool[i + 1..], byValue), (x: Item) => x.id > pool[i].id) == Filter(pool[i + 1..], byValue)
  {
    hide Filter;
    forall x | x in Filter(pool[i + 1..], byValue)
      ensures x.id > pool[i].id
    {
      assert x in pool[i + 1..];
    }
    FilterAll(Filter(pool[i + 1..], byValue), (x: Item) => x.id > pool[i].id);
  }

  /** In an ascending pool, the items after `pool[i]` by id are those after it by position. */
  lemma AfterIsSuffix(pool: seq<Item>, i: nat, v: int)
    requires Ascending(pool) && i < |pool|
    ensures After(pool, pool[i], v) == WithValue(pool[i + 1..], v)
  {
    hide Filter, After, WithValue, Ascending;
    AfterSplits(pool, i, v);
    NoneOfPrefix(pool, i, (x: Item) => x.value == v);
    AllOfSuffix(pool, i, (x: Item) => x.value == v);
  }

  /** Hits of a prepended item are the item before the hits for what remains. */
  lemma {:induction false} HittingPrepend(x: Item, cs: seq<seq<Item>>, target: int)
    ensures Hitting(Prepend(x, cs), target, 0) == Prepend(x, Hitting(cs, target - x.value, 0))
  {
    var keep := (c: seq<Item>) => Hits(c, target, 0);
    var keep' := (c: seq<Item>) => Hits(c, target - x.value, 0);
    hide Filter, Prepend;
    FilterUnfold(cs, keep');
    FilterUnfold(Prepend(x, cs), keep);
    if cs != [] {
      HittingPrepend(x, cs[1..], target);
      assert Prepend(x, cs)[1..] == Prepend(x, cs[1..]);
      assert ([x] + cs[0])[1..] == cs[0];
      assert keep([x] + cs[0]) == keep'(cs[0]);
      PrependStep(x, cs[0], Hitting(cs[1..], target - x.value, 0));
    }
  }

  lemma PrependStep<T>(x: T, c: seq<T>, cs: seq<seq<T>>)
    ensures Prepend(x, [c] + cs) == [[x] + c] + Prepend(x, cs) && Prepend(x, [] + cs) == Prepend(x, cs)
  {
    assert [] + cs == cs;
  }

  lemma ExtendIsPrepend(x: Item, zs: seq<Item>)
    ensures Extensions([x], zs) == Prepend(x, Extensions([], zs))
  {
    forall i | 0 <= i < |zs|
      ensures [x] + [zs[i]] == [x] + ([] + [zs[i]])
    {
      assert [] + [zs[i]] == [zs[i]];
    }
  }

  lemma {:induction false} HittingSingles(s: seq<Item>, v: int)
    ensures Hitting(Combinations(s, 1), v, 0) == Extensions([], WithValue(s, v))
  {
    var keep := (c: seq<Item>) => Hits(c, v, 0);
    var byValue := (x: Item) => x.value == v;
    hide Filter, Combinations, Extensions, Prepend;
    CombinationsUnfold(s, 1);
    FilterUnfold(s, byValue);
    if s == [] {
      FilterUnfold<seq<Item>>([], keep);
      assert Extensions([], []) == [];
    } else {
      HittingSingles(s[1..], v);
      CombinationsUnfold(s[1..], 0);
      assert [s[0]] + [] == [s[0]];
      assert Combinations(s, 1) == [[s[0]]] + Combinations(s[1..], 1);
      FilterConcat([[s[0]]], Combinations(s[1..], 1), keep);
      FilterOne([s[0]], keep);
      assert Total([s[0]]) == s[0].value;
      ExtensionsSplit(if byValue(s[0]) then [s[0]] else [], WithValue(s[1..], v));
    }
  }

  lemma ExtensionsSplit(a: seq<Item>, b: seq<Item>)
    ensures Extensions([], a + b) == Extensions([], a) + Extensions([], b)
    ensures |a| == 1 ==> Extensions([], a) == [[a[0]]]
  {
    if |a| == 1 {
      assert [] + [a[0]] == [a[0]];
    }
  }

  lemma {:induction false} PairsAreCombinations(pool: seq<Item>, i: nat, target: int)
    requires Ascending(pool) && i <= |pool|
    ensures PairsFrom(pool, pool[i..], target) == Hitting(Combinations(pool[i..], 2), target, 0)
    decreases |pool| - i
  {
    hide Combinations, Hitting, After, Extensions, WithValue, Prepend, PairsFrom;
    if i == |pool| {
      SuffixEnd(pool, target);
    } else {
      var x, tail, v := pool[i], pool[i + 1..], target - pool[i].value;
      CombinationsSuffix(pool, i, 2);
      PairsSuffix(pool, i, target);
      PairsAreCombinations(pool, i + 1, target);
      AfterIsSuffix(pool, i, v);
      HittingSingles(tail, v);
      ExtendIsPrepend(x, WithValue(tail, v));
      HittingPrepend(x, Combinations(tail, 1), target);
      HittingConcat(Prepend(x, Combinations(tail, 1)), Combinations(tail, 2), target);
    }
  }

  lemma CombinationsSuffix(pool: seq<Item>, i: nat, k: nat)
    requires i < |pool| && k > 0
    ensures Combinations(pool[i..], k) == Prepend(pool[i], Combinations(pool[i + 1..], k - 1))
              + Combinations(pool[i + 1..], k)
  {
    hide Combinations;
    CombinationsUnfold(pool[i..], k);
    assert pool[i..][1..] == pool[i + 1..];
  }

  lemma PairsSuffix(pool: seq<Item>, i: nat, target: int)
    requires i < |pool|
    ensures PairsFrom(pool, pool[i..], target)
            == Extensions([pool[i]], After(pool, pool[i], target - pool[i].value))
                 + PairsFrom(pool, pool[i + 1..], target)
  {
    hide Extensions, After;
    assert pool[i..][1..] == pool[i + 1..];
  }

  lemma SuffixEnd(pool: seq<Item>, target: int)
    ensures PairsFrom(pool, pool[|pool|..], target) == [] && TriplesFrom(pool, pool[|pool|..], target) == []
    ensures Hitting(Combinations(pool[|pool|..], 2), target, 0) == []
    ensures Hitting(Combinations(pool[|pool|..], 3), target, 0) == []
  {
  }

  lemma HittingConcat(a: seq<seq<Item>>, b: seq<seq<Item>>, target: int)
    ensures Hitting(a + b, target, 0) == Hitting(a, target, 0) + Hitting(b, target, 0)
  {
    FilterConcat(a, b, (c: seq<Item>) => Hits(c, target, 0));
  }

  lemma {:induction false} ThirdsArePairs(pool: seq<Item>, first: Item, rest: seq<Item>, target: int)
    requires Positive(pool)
    ensures ThirdsFrom(pool, first, rest, target) == Prepend(first, PairsFrom(pool, rest, target - first.value))
  {
    hide After, Extensions, Prepend, Positive;
    if rest != [] {
      var v := target - first.value - rest[0].value;
      var zs := After(pool, rest[0], v);
      ThirdsArePairs(pool, first, rest[1..], target);
      NoNonPositive(pool, rest[0], v);
      ExtendTwice(first, rest[0], zs);
      PrependConcat(first, Extensions([rest[0]], zs), PairsFrom(pool, rest[1..], target - first.value));
    }
  }

  lemma NoNonPositive(pool: seq<Item>, y: Item, v: int)
    requires Positive(pool)
    ensures v <= 0 ==> After(pool, y, v) == []
  {
    if v <= 0 {
      FilterNone(pool, (x: Item) => x.value == v);
      FilterUnfold<Item>([], (x: Item) => x.id > y.id);
    }
  }

  lemma ExtendTwice(x: Item, y: Item, zs: seq<Item>)
    ensures Extensions([x, y], zs) == Prepend(x, Extensions([y], zs))
  {
    forall i | 0 <= i < |zs|
      ensures [x, y] + [zs[i]] == [x] + ([y] + [zs[i]])
    {
    }
  }

  lemma PrependConcat<T>(x: T, a: seq<seq<T>>, b: seq<seq<T>>)
    ensures Prepend(x, a + b) == Prepend(x, a) + Prepend(x, b)
  {
  }

  lemma {:induction false} TriplesAreCombinations(pool: seq<Item>, i: nat, target: int)
    requires Ascending(pool) && Positive(pool) && i <= |pool|
    ensures TriplesFrom(pool, pool[i..], target) == Hitting(Combinations(pool[i..], 3), target, 0)
    decreases |pool| - i
  {
    hide Combinations, Hitting, ThirdsFrom, PairsFrom, TriplesFrom, Prepend, Positive;
    if i == |pool| {
      SuffixEnd(pool, target);
    } else {
      var x, tail := pool[i], pool[i + 1..];
      CombinationsSuffix(pool, i, 3);
      TriplesNext(pool, i, target);
      TriplesAreCombinations(pool, i + 1, target);
      ThirdsArePairs(pool, x, tail, target);
      PairsAreCombinations(pool, i + 1, target - x.value);
      HittingPrepend(x, Combinations(tail, 2), target);
      HittingConcat(Prepend(x, Combinations(tail, 2)), Combinations(tail, 3), target);
    }
  }

  lemma {:induction false} FreshOfDistinct(cs: seq<seq<Item>>, seen: set<set<int>>)
    requires forall i, j :: 0 <= i < j < |cs| ==> IdSet(cs[i]) != IdSet(cs[j])
    requires forall c :: c in cs ==> IdSet(c) !in seen
    ensures Fresh(cs, seen) == cs
  {
    hide IdSet;
    if cs != [] {
      assert cs == [cs[0]] + cs[1..];
      FreshOfDistinct(cs[1..], seen + {IdSet(cs[0])});
    }
  }

  lemma VisitsAreCombinations(pool: seq<Item>, target: int)
    requires Ascending(pool) && Positive(pool)
    ensures Visits(pool, target) == Hitting(AllCombinations(pool, 2, 3), target, 0)
  {
    hide Combinations, Hitting, PairsFrom, TriplesFrom;
    PairsAreCombinations(pool, 0, target);
    TriplesAreCombinations(pool, 0, target);
    assert pool[0..] == pool;
    HittingConcat(Combinations(pool, 2), Combinations(pool, 3), target);
    TwoAndThree(pool);
  }

  /** In an ascending pool every visited tuple is ascending, so equal id sets mean equal tuples. */
  lemma AscendingVisit(pool: seq<Item>, target: int, c: seq<Item>)
    requires Ascending(pool) && c in Visits(pool, target)
    ensures (|c| == 2 && c[0].id < c[1].id) || (|c| == 3 && c[0].id < c[1].id < c[2].id)
    ensures forall x :: x in c ==> x in pool
  {
    hide PairsFrom, TriplesFrom;
    PairsMember(pool, pool, target, c);
    TriplesMember(pool, pool, target, c);
    VisitShape(pool, target, c);
  }

  lemma SameIdsSameTuple(pool: seq<Item>, target: int, c: seq<Item>, d: seq<Item>)
    requires Ascending(pool) && c in Visits(pool, target) && d in Visits(pool, target) && IdSet(c) == IdSet(d)
    ensures c == d
  {
    hide Visits;
    AscendingVisit(pool, target, c);
    AscendingVisit(pool, target, d);
    SelectionTotal(c);
    SelectionTotal(d);
    SortedIds(c, d);
    forall i | 0 <= i < |c|
      ensures c[i] == d[i]
    {
      var k := PositionOf(pool, c[i]);
      var l := PositionOf(pool, d[i]);
      assert k == l;
    }
  }

  lemma SortedIds(c: seq<Item>, d: seq<Item>)
    requires (|c| == 2 && c[0].id < c[1].id) || (|c| == 3 && c[0].id < c[1].id < c[2].id)
    requires (|d| == 2 && d[0].id < d[1].id) || (|d| == 3 && d[0].id < d[1].id < d[2].id)
    requires IdSet(c) == IdSet(d)
    ensures |c| == |d| && forall i :: 0 <= i < |c| ==> c[i].id == d[i].id
  {
    hide IdSet, Total;
    SelectionTotal(c);
    SelectionTotal(d);
    assert forall i :: 0 <= i < |c| ==> c[i].id in IdSet(d);
    assert forall i :: 0 <= i < |d| ==> d[i].id in IdSet(c);
  }

  lemma AscendingDistinct(pool: seq<Item>)
    requires Ascending(pool)
    ensures DistinctIds(pool)
  {
  }

  lemma VisitsDiffer(pool: seq<Item>, target: int)
    requires Ascending(pool) && Positive(pool)
    ensures Pairwise(Visits(pool, target), (c, d) => multiset(c) != multiset(d))
  {
    var differ := (c: seq<Item>, d: seq<Item>) => multiset(c) != multiset(d);
    hide Combinations, Hits, Visits, PairsFrom, TriplesFrom, Ascending;
    AscendingDistinct(pool);
    var twos, threes := Combinations(pool, 2), Combinations(pool, 3);
    CombinationsNeverRepeat(pool, 2);
    CombinationsNeverRepeat(pool, 3);
    forall i, j | 0 <= i < |twos| && 0 <= j < |threes|
      ensures differ(twos[i], threes[j])
    {
      assert twos[i] in twos && threes[j] in threes;
      assert |multiset(twos[i])| == 2 && |multiset(threes[j])| == 3;
    }
    PairwiseConcat(twos, threes, differ);
    TwoAndThree(pool);
    VisitsAreCombinations(pool, target);
    FilterPairwise(AllCombinations(pool, 2, 3), (c: seq<Item>) => Hits(c, target, 0), differ);
  }

  lemma TwoAndThree(pool: seq<Item>)
    ensures AllCombinations(pool, 2, 3) == Combinations(pool, 2) + Combinations(pool, 3)
  {
    hide Combinations;
    assert AllCombinations(pool, 4, 3) == [];
    assert AllCombinations(pool, 3, 3) == Combinations(pool, 3) + [];
  }

  /** On a pool in ascending id order the indexed matcher returns exactly what plain enumeration of
      two- and three-term combinations returns, in the same order and under the same limit. */
  lemma LegacyAgreesWhenAscending(pool: seq<Item>, target: int, maxResults: nat, budget: nat)
    requires Ascending(pool) && Positive(pool) && target > 0 && maxResults >= 1
    requires budget >= |AllCombinations(pool, 2, 3)|
    ensures LegacySubsetsOf(pool, target, maxResults)
              == Searched(AllCombinations(pool, 2, 3), target, 0, budget, maxResults)
  {
    hide Combinations, Hitting, Visits, AllCombinations, Fresh, IdSet, AllIds;
    AscendingDistinct(pool);
    VisitsAreCombinations(pool, target);
    VisitsDiffer(pool, target);
    var v := Visits(pool, target);
    forall i, j | 0 <= i < j < |v|
      ensures IdSet(v[i]) != IdSet(v[j])
    {
      if IdSet(v[i]) == IdSet(v[j]) {
        SameIdsSameTuple(pool, target, v[i], v[j]);
      }
    }
    FreshOfDistinct(v, {});
  }
}
