/** Selections told apart by the keys they use. */
module KeySets {
  import opened Sequences
  import opened SubsetSearch
  import opened LegacySubsets

  function Members(c: seq<Item>): set<Item> {
    set x | x in c
  }

  lemma MembersStep(c: seq<Item>)
    requires c != [] && DistinctIds(c)
    ensures Members(c) == {c[0]} + Members(c[1..]) && c[0] !in Members(c[1..])
  {
    assert c == [c[0]] + c[1..];
  }

  lemma {:induction false} MultisetOfDistinct(c: seq<Item>)
    requires DistinctIds(c)
    ensures multiset(c) == multiset(Members(c))
  {
    if c != [] {
      hide Members;
      MultisetOfDistinct(c[1..]);
      MembersStep(c);
      assert c == [c[0]] + c[1..];
      JoinMember(c[0], Members(c[1..]));
    } else {
      assert Members(c) == {};
    }
  }

  lemma JoinMember(x: Item, s: set<Item>)
    requires x !in s
    ensures multiset({x} + s) == multiset{x} + multiset(s)
  {
  }

  /** In a pool of distinct keys, the keys of a selection determine its members. */
  lemma SameKeysSameMembers(pool: seq<Item>, c: seq<Item>, d: seq<Item>)
    requires DistinctIds(pool) && DistinctIds(c) && DistinctIds(d) && IdSet(c) == IdSet(d)
    requires (forall x :: x in c ==> x in pool) && (forall x :: x in d ==> x in pool)
    ensures multiset(c) == multiset(d)
  {
    MultisetOfDistinct(c);
    MultisetOfDistinct(d);
    forall x | x in c
      ensures x in d
    {
      KeyFound(pool, c, d, x);
    }
    forall x | x in d
      ensures x in c
    {
      KeyFound(pool, d, c, x);
    }
    assert Members(c) == Members(d);
  }

  lemma KeyFound(pool: seq<Item>, c: seq<Item>, d: seq<Item>, x: Item)
    requires DistinctIds(pool) && x in c && IdSet(c) == IdSet(d)
    requires (forall y :: y in c ==> y in pool) && (forall y :: y in d ==> y in pool)
    ensures x in d
  {
    assert x.id in IdSet(d);
    var y :| y in d && y.id == x.id;
    var i :| 0 <= i < |pool| && pool[i] == x;
    var j :| 0 <= j < |pool| && pool[j] == y;
    assert i == j;
  }

  lemma SameMembersSameKeys(c: seq<Item>, t: seq<Item>)
    requires multiset(c) == multiset(t)
    ensures IdSet(c) == IdSet(t)
  {
    assert forall x :: x in c <==> x in multiset(c);
    assert forall x :: x in t <==> x in multiset(t);
  }

  predicate KeysDiffer(c: seq<Item>, d: seq<Item>) {
    IdSet(c) != IdSet(d)
  }

  lemma CombinationsKeysDiffer(s: seq<Item>, k: nat)
    requires DistinctIds(s)
    ensures Pairwise(Combinations(s, k), KeysDiffer)
  {
    hide Combinations, IdSet;
    CombinationsNeverRepeat(s, k);
    var cs := Combinations(s, k);
    forall i, j | 0 <= i < j < |cs|
      ensures KeysDiffer(cs[i], cs[j])
    {
      assert cs[i] in cs && cs[j] in cs;
      CombinationsSound(s, k, cs[i]);
      CombinationsSound(s, k, cs[j]);
      if IdSet(cs[i]) == IdSet(cs[j]) {
        SameKeysSameMembers(s, cs[i], cs[j]);
      }
    }
  }

  lemma {:induction false} IdSetSize(c: seq<Item>)
    requires DistinctIds(c)
    ensures |IdSet(c)| == |c|
  {
    if c != [] {
      IdSetSize(c[1..]);
      assert c == [c[0]] + c[1..];
      assert IdSet(c) == {c[0].id} + IdSet(c[1..]);
      forall x | x in c[1..]
        ensures x.id != c[0].id
      {
        var i :| 0 <= i < |c[1..]| && c[1..][i] == x;
        assert c[i + 1] == x;
      }
      assert c[0].id !in IdSet(c[1..]);
    }
  }

  lemma {:induction false} AllKeysDiffer(s: seq<Item>, lo: nat, hi: int)
    requires DistinctIds(s)
    ensures Pairwise(AllCombinations(s, lo, hi), KeysDiffer)
    decreases hi + 1 - lo
  {
    if lo <= hi {
      hide Combinations, IdSet;
      var a, b := Combinations(s, lo), AllCombinations(s, lo + 1, hi);
      CombinationsKeysDiffer(s, lo);
      AllKeysDiffer(s, lo + 1, hi);
      forall i, j | 0 <= i < |a| && 0 <= j < |b|
        ensures KeysDiffer(a[i], b[j])
      {
        assert a[i] in a && b[j] in b;
        AllCombinationsMember(s, lo + 1, hi, b[j]);
        CombinationsSound(s, lo, a[i]);
        CombinationsSound(s, |b[j]|, b[j]);
        IdSetSize(a[i]);
        IdSetSize(b[j]);
      }
      PairwiseConcat(a, b, KeysDiffer);
    }
  }

  /** The tuples kept by the indexed matcher differ in their keys. */
  lemma {:induction false} FreshKeysDiffer(cs: seq<seq<Item>>, seen: set<set<int>>)
    ensures Pairwise(Fresh(cs, seen), KeysDiffer)
    ensures forall c :: c in Fresh(cs, seen) ==> IdSet(c) !in seen
  {
    hide IdSet;
    if cs != [] {
      if IdSet(cs[0]) in seen {
        FreshKeysDiffer(cs[1..], seen);
      } else {
        FreshKeysDiffer(cs[1..], seen + {IdSet(cs[0])});
      }
    }
  }
}
