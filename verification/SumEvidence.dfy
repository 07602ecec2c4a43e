/** The set-sum signal: a credit explained as the only sum of settlement nets near its date. */
module SumEvidence {
  import opened Sequences
  import opened SubsetSearch
  import opened LegacySubsets
  import opened LegacyProperties
  import opened KeySets
  import opened Reconcile
  import SplitLegs

  type Payout = SplitLegs.Payout

  const SUM_DATE_WINDOW := 5

  predicate Near(day: int, s: Payout) {
    s.date.Some? && -SUM_DATE_WINDOW <= day - s.date.value <= SUM_DATE_WINDOW
  }

  /** A settlement below the credit, dated near it. */
  predicate IsPart(amount: int, day: int, s: Payout) {
    0 < s.net < amount && Near(day, s)
  }

  function PartsOf(amount: int, day: int, ss: seq<Payout>): seq<Payout> {
    Filter(ss, (s: Payout) => IsPart(amount, day, s))
  }

  function AsItems(ss: seq<Payout>): (r: seq<Item>)
    ensures |r| == |ss| && forall i :: 0 <= i < |ss| ==> r[i] == Item(ss[i].sid, ss[i].net)
  {
    seq(|ss|, i requires 0 <= i < |ss| => Item(ss[i].sid, ss[i].net))
  }

  function Parts(amount: int, day: int, ss: seq<Payout>): seq<Item> {
    AsItems(PartsOf(amount, day, ss))
  }

  /** Settlements that alone make the credit. */
  function Wholes(amount: int, day: int, ss: seq<Payout>): seq<Payout> {
    Filter(ss, (s: Payout) => s.net == amount && Near(day, s))
  }

  datatype Finding = NoSum | SumUnenumerable | SumAmbiguous | SumFound

  function Judge(wholes: nat, subsets: seq<seq<int>>): Finding {
    if wholes + |subsets| > 1 then SumAmbiguous
    else if |subsets| == 1 && |subsets[0]| != 1 then SumFound
    else NoSum
  }

  function SumFinding(isCredit: bool, amount: int, day: int, ss: seq<Payout>): Finding {
    var cands := Parts(amount, day, ss);
    if !isCredit || cands == [] || |cands| > SETSUM_MAX_CANDIDATES then NoSum
    else
      var search := SetSum(cands, amount);
      if search.Found? then Judge(|Wholes(amount, day, ss)|, search.subsets) else SumUnenumerable
  }

  /** `_setsum_evidence`. */
  method FindSum(isCredit: bool, amount: int, day: int, ss: seq<Payout>) returns (f: Finding)
    ensures f == SumFinding(isCredit, amount, day, ss)
  {
    hide BoundedSubsets, LegacySubsetsOf, Filter;
    if !isCredit {
      return NoSum;
    }
    var cands: seq<Item>, wholes := [], 0;
    ghost var part := (s: Payout) => IsPart(amount, day, s);
    ghost var whole := (s: Payout) => s.net == amount && Near(day, s);
    FilterUnfold(ss[..0], part);
    FilterUnfold(ss[..0], whole);
    for i := 0 to |ss|
      invariant cands == AsItems(Filter(ss[..i], part))
      invariant wholes == |Filter(ss[..i], whole)|
    {
      FilterStep(ss, i, part);
      FilterStep(ss, i, whole);
      if IsPart(amount, day, ss[i]) {
        cands := cands + [Item(ss[i].sid, ss[i].net)];
      }
      if ss[i].net == amount && Near(day, ss[i]) {
        wholes := wholes + 1;
      }
    }
    assert ss[..|ss|] == ss;
    if cands == [] || |cands| > SETSUM_MAX_CANDIDATES {
      return NoSum;
    }
    var search;
    if |cands| <= SETSUM_EXPANSION_MAX_CANDIDATES {
      search := FindBoundedSubsets(cands, amount, 0, 1, SETSUM_MAX_TERMS, SETSUM_EXPANSION_MAX_CANDIDATES,
                                   SETSUM_MAX_COMBINATIONS, 2, false);
    } else {
      search := FindLegacySubsets(cands, amount, 2);
    }
    if !search.Found? {
      return SumUnenumerable;
    }
    return Judge(wholes, search.subsets);
  }

  // ----- What a found sum proves

  lemma PartsFacts(amount: int, day: int, ss: seq<Payout>)
    requires SplitLegs.DistinctSids(ss)
    ensures var cands := Parts(amount, day, ss);
            DistinctIds(cands) && Positive(cands) && forall x :: x in cands ==> x.value < amount
  {
    var differ := (a: Payout, b: Payout) => a.sid != b.sid;
    var keep := (s: Payout) => IsPart(amount, day, s);
    assert Pairwise(ss, differ);
    FilterPairwise(ss, keep, differ);
    var ps := PartsOf(amount, day, ss);
    assert Pairwise(ps, differ);
    hide Filter;
    assert forall i :: 0 <= i < |ps| ==> ps[i] in ps;
  }

  /** The search is never cut short at these sizes. */
  lemma NeverUnenumerable(isCredit: bool, amount: int, day: int, ss: seq<Payout>)
    requires SplitLegs.DistinctSids(ss)
    ensures !SumFinding(isCredit, amount, day, ss).SumUnenumerable?
  {
    hide SetSum, Parts;
    PartsFacts(amount, day, ss);
    var cands := Parts(amount, day, ss);
    if cands != [] {
      assert cands[0] in cands;
      SetSumIsExact(cands, amount);
    }
  }

  /** A genuine sum: distinct settlements near the credit, two or more, that make it to the paise. */
  ghost predicate GenuineSum(amount: int, day: int, ss: seq<Payout>, t: seq<Item>) {
    var cands := Parts(amount, day, ss);
    IsSelection(cands, amount, 0, 2, MaxTerms(cands), t)
  }

  lemma FoundListsOne(amount: int, day: int, ss: seq<Payout>)
    requires SplitLegs.DistinctSids(ss) && SumFinding(true, amount, day, ss) == SumFound
    ensures var listed := Listed(Parts(amount, day, ss), amount);
            && |listed| == 1 && |listed[0]| != 1 && Wholes(amount, day, ss) == [] && amount > 0
  {
    hide SetSum, Parts, Wholes, Listed;
    PartsFacts(amount, day, ss);
    var cands := Parts(amount, day, ss);
    assert cands[0] in cands;
    SetSumLists(cands, amount);
  }

  lemma NoWholes(amount: int, day: int, ss: seq<Payout>)
    requires Wholes(amount, day, ss) == []
    ensures forall s :: s in ss ==> !(s.net == amount && Near(day, s))
  {
    forall s | s in ss
      ensures !(s.net == amount && Near(day, s))
    {
      assert s.net == amount && Near(day, s) ==> s in Wholes(amount, day, ss);
    }
  }

  /** Every genuine sum in the searched range uses the same settlements, and no single settlement does. */
  lemma FoundSumIsTheOnlyOne(amount: int, day: int, ss: seq<Payout>, t: seq<Item>, t': seq<Item>)
    requires SplitLegs.DistinctSids(ss) && SumFinding(true, amount, day, ss) == SumFound
    requires GenuineSum(amount, day, ss, t) && GenuineSum(amount, day, ss, t')
    ensures IdSet(t) == IdSet(t') && forall s :: s in ss ==> !(s.net == amount && Near(day, s))
  {
    hide Parts, Listed, IdSet, IsSelection, Wholes, SumFinding;
    FoundListsOne(amount, day, ss);
    PartsFacts(amount, day, ss);
    NoWholes(amount, day, ss);
    var c := ListedCovers(Parts(amount, day, ss), amount, t);
    var c' := ListedCovers(Parts(amount, day, ss), amount, t');
  }

  /** The settlements of a found sum. */
  function FoundKeys(amount: int, day: int, ss: seq<Payout>): set<int> {
    var listed := Listed(Parts(amount, day, ss), amount);
    if listed == [] then {} else IdSet(listed[0])
  }

  /** Every sum of any number of terms uses the settlements found if and only if none has more terms than
      the search covers. */
  lemma FoundSumIsTheOnlyOneExactlyWhen(amount: int, day: int, ss: seq<Payout>)
    requires SplitLegs.DistinctSids(ss) && SumFinding(true, amount, day, ss) == SumFound
    ensures var cands := Parts(amount, day, ss);
            (forall t :: IsSum(cands, amount, t) ==> IdSet(t) == FoundKeys(amount, day, ss))
            <==> !exists t :: IsSum(cands, amount, t) && |t| > MaxTerms(cands)
  {
    hide Parts, Listed, IdSet, Wholes, SumFinding;
    var cands := Parts(amount, day, ss);
    FoundListsOne(amount, day, ss);
    PartsFacts(amount, day, ss);
    var c := Listed(cands, amount)[0];
    assert c in Listed(cands, amount);
    ListedTerms(cands, amount, c);
    KeysAtMost(c);
    forall t | IsSum(cands, amount, t)
      ensures |t| <= MaxTerms(cands) <==> IdSet(t) == IdSet(c)
    {
      SumUsesCandidates(cands, amount, t);
      if |t| <= MaxTerms(cands) {
        var c' := ListedCovers(cands, amount, t);
      }
    }
  }

  lemma KeysAtMost(c: seq<Item>)
    ensures |IdSet(c)| <= |c|
  {
    IdsAsSet(c);
    AsSetSize(Ids(c));
  }

  lemma RepeatedTupleIsNoSum(cands: seq<Item>, amount: int, c: seq<Item>, t: seq<Item>)
    requires DistinctIds(cands) && Positive(cands) && c in Visits(cands, amount) && RepeatsId(c)
    requires DistinctIds(t) && (forall x :: x in t ==> x in cands) && Total(t) == amount
    ensures IdSet(c) != IdSet(t)
  {
    hide PairsFrom, TriplesFrom, Total, IdSet;
    PairsMember(cands, cands, amount, c);
    TriplesMember(cands, cands, amount, c);
    VisitShape(cands, amount, c);
    var i, j :| 0 <= i < j < |cands| && IsThirdVisit(cands, cands[i], cands[j], amount, c);
    assert c == [cands[i], cands[j], c[2]];
    var k := PositionOf(cands, c[2]);
    assert k == i;
    var d := [cands[i], cands[j]];
    SameIds(cands[i], cands[j]);
    PairTotal(cands[i], cands[j]);
    TripleTotal(cands[i], cands[j], cands[i]);
    if IdSet(c) == IdSet(t) {
      SameKeysSameMembers(cands, d, t);
      TotalOfMembers(d, t);
    }
  }

  lemma SameIds(a: Item, b: Item)
    ensures IdSet([a, b, a]) == IdSet([a, b])
  {
    assert forall x :: x in [a, b, a] <==> x in [a, b];
  }

  /** A found sum is genuine if and only if the pool is small or has no inverted pair: with more than
      sixteen candidates out of id order, a settlement counted twice can pose as the sum. */
  lemma FoundSumIsGenuineExactlyWhen(amount: int, day: int, ss: seq<Payout>)
    requires SplitLegs.DistinctSids(ss) && SumFinding(true, amount, day, ss) == SumFound
    ensures var cands := Parts(amount, day, ss);
            (exists t :: GenuineSum(amount, day, ss, t))
            <==> !(|cands| > SETSUM_EXPANSION_MAX_CANDIDATES && Inverted(cands, amount))
  {
    hide Parts, Listed, IdSet, Inverted, Visits, Fresh, Total, SumFinding;
    var cands := Parts(amount, day, ss);
    FoundListsOne(amount, day, ss);
    PartsFacts(amount, day, ss);
    ListedRepeats(cands, amount);
    var listed := Listed(cands, amount);
    var c := listed[0];
    assert listed == [c] && c in listed;
    ListedIsVisited(cands, amount, c);
    if RepeatsId(c) {
      if t :| GenuineSum(amount, day, ss, t) {
        var c' := ListedCovers(cands, amount, t);
        assert c' == c;
        HitsExactly(t, amount);
        RepeatedTupleIsNoSum(cands, amount, c, t);
      }
    } else {
      HitsExactly(c, amount);
      assert GenuineSum(amount, day, ss, c);
    }
  }

  lemma HitsExactly(t: seq<Item>, amount: int)
    ensures Hits(t, amount, 0) <==> Total(t) == amount
  {
  }

  lemma ListedIsVisited(cands: seq<Item>, amount: int, c: seq<Item>)
    requires DistinctIds(cands) && Positive(cands) && c in Listed(cands, amount) && |c| != 1
    ensures (forall x :: x in c ==> x in cands) && 2 <= |c| <= MaxTerms(cands) && Total(c) == amount
    ensures |cands| > SETSUM_EXPANSION_MAX_CANDIDATES ==> c in Visits(cands, amount)
  {
    hide AllCombinations, Visits, Fresh, Total;
    HitsExactly(c, amount);
    if |cands| <= SETSUM_EXPANSION_MAX_CANDIDATES {
      VisitedIsSelection(cands, amount, 0, 1, SETSUM_MAX_TERMS, c);
    } else {
      VisitShape(cands, amount, c);
    }
  }

  // ----- When a sum is found

  /** One search at these sizes: the credit is a credit, and there are candidates and not too many. */
  predicate Sought(isCredit: bool, cands: seq<Item>) {
    isCredit && Searchable(cands)
  }

  ghost predicate SomeOffered(cands: seq<Item>, amount: int) {
    exists k :: OfferedKeys(cands, amount, k)
  }

  ghost predicate OneOffered(cands: seq<Item>, amount: int) {
    exists keys :: OfferedKeys(cands, amount, keys) && forall k :: OfferedKeys(cands, amount, k) ==> k == keys
  }

  ghost predicate TwoOffered(cands: seq<Item>, amount: int) {
    exists k, l :: OfferedKeys(cands, amount, k) && OfferedKeys(cands, amount, l) && k != l
  }

  /** The finding, exactly: a sum is found when no settlement makes the credit alone and the offered sums
      are of one set of settlements; it is ambiguous when there are two explanations of any kind. */
  lemma FindingExactlyWhen(isCredit: bool, amount: int, day: int, ss: seq<Payout>)
    requires SplitLegs.DistinctSids(ss)
    ensures var f, cands, wholes := SumFinding(isCredit, amount, day, ss), Parts(amount, day, ss),
                                    Wholes(amount, day, ss);
            && (f == SumFound <==> Sought(isCredit, cands) && wholes == [] && OneOffered(cands, amount))
            && (f == SumAmbiguous <==>
                  Sought(isCredit, cands)
                  && (|wholes| >= 2 || (|wholes| == 1 && SomeOffered(cands, amount)) || TwoOffered(cands, amount)))
  {
    hide SetSum, Parts, Wholes, Listed, SomeOffered, OneOffered, TwoOffered;
    PartsFacts(amount, day, ss);
    var cands := Parts(amount, day, ss);
    if Sought(isCredit, cands) {
      assert cands[0] in cands;
      SetSumLists(cands, amount);
      ListedCount(cands, amount);
    }
  }

  /** How many sums are listed is how many sets of settlements are offered, up to two. */
  lemma ListedCount(cands: seq<Item>, amount: int)
    requires DistinctIds(cands) && Positive(cands) && amount > 0 && forall x :: x in cands ==> x.value < amount
    ensures |Listed(cands, amount)| >= 1 <==> SomeOffered(cands, amount)
    ensures |Listed(cands, amount)| == 1 <==> OneOffered(cands, amount)
    ensures |Listed(cands, amount)| >= 2 <==> TwoOffered(cands, amount)
    ensures forall i :: 0 <= i < |Listed(cands, amount)| ==> |Listed(cands, amount)[i]| != 1
  {
    hide Listed, OfferedKeys, IdSet, ListedAs, Offered, OneOffered;
    var listed := Listed(cands, amount);
    SetSumLists(cands, amount);
    forall i | 0 <= i < |listed|
      ensures OfferedKeys(cands, amount, IdSet(listed[i])) && |listed[i]| != 1
    {
      ListedOfferedAt(cands, amount, i);
    }
    forall k | OfferedKeys(cands, amount, k)
      ensures exists i :: 0 <= i < |listed| && IdSet(listed[i]) == k
    {
      ListedExactly(cands, amount, k);
      ListedAt(cands, amount, k);
    }
    if |listed| >= 1 {
      assert OfferedKeys(cands, amount, IdSet(listed[0]));
      assert SomeOffered(cands, amount);
    }
    if |listed| >= 2 {
      assert KeysDiffer(listed[0], listed[1]);
      assert OfferedKeys(cands, amount, IdSet(listed[0])) && OfferedKeys(cands, amount, IdSet(listed[1]));
      assert TwoOffered(cands, amount);
    }
    OneIsSomeNotTwo(cands, amount);
  }

  lemma OneIsSomeNotTwo(cands: seq<Item>, amount: int)
    ensures OneOffered(cands, amount) <==> SomeOffered(cands, amount) && !TwoOffered(cands, amount)
  {
    hide OfferedKeys;
  }

  lemma ListedOfferedAt(cands: seq<Item>, amount: int, i: nat)
    requires DistinctIds(cands) && Positive(cands) && forall x :: x in cands ==> x.value < amount
    requires i < |Listed(cands, amount)|
    ensures OfferedKeys(cands, amount, IdSet(Listed(cands, amount)[i])) && |Listed(cands, amount)[i]| != 1
  {
    hide Listed, IdSet, Offered;
    var c := Listed(cands, amount)[i];
    assert c in Listed(cands, amount);
    ListedIsOffered(cands, amount, c);
    OfferedTerms(cands, amount, c);
  }

  lemma ListedAt(cands: seq<Item>, amount: int, keys: set<int>)
    requires ListedAs(cands, amount, keys)
    ensures exists i :: 0 <= i < |Listed(cands, amount)| && IdSet(Listed(cands, amount)[i]) == keys
  {
    hide Listed, IdSet;
    var c :| c in Listed(cands, amount) && IdSet(c) == keys;
    var i :| 0 <= i < |Listed(cands, amount)| && Listed(cands, amount)[i] == c;
  }

  lemma OfferedTerms(cands: seq<Item>, amount: int, t: seq<Item>)
    requires Offered(cands, amount, t)
    ensures |t| != 1 && OfferedKeys(cands, amount, IdSet(t))
  {
  }
}
