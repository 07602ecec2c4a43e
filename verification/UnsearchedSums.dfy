/** Reports on which a single settlement is chosen although a sum the search does not cover makes the amount. */
module UnsearchedSums {
  import opened Sequences
  import opened SubsetSearch
  import opened LegacySubsets
  import opened LegacyProperties
  import opened SettlementGroups
  import opened Reconcile
  import opened PlainReports

  const CREDIT := 20000
  const LINE := Line(1, CREDIT, 0, [])

  /** Ids 1, 2, ... in report order. */
  function Numbered(n: nat): (ids: seq<int>)
    ensures |ids| == n && forall i :: 0 <= i < n ==> ids[i] == i + 1
  {
    seq(n, i requires 0 <= i < n => i + 1)
  }

  /** The first settlement makes the credit alone and every other one is smaller. */
  predicate WholeFirst(nets: seq<int>) {
    nets != [] && nets[0] == CREDIT && forall i :: 1 <= i < |nets| ==> 0 < nets[i] < CREDIT
  }

  function Report(nets: seq<int>): seq<ReconRow> {
    PlainRows(Numbered(|nets|), nets)
  }

  lemma RestAreTerms(nets: seq<int>, idx: Index, s: int)
    requires WholeFirst(nets) && ValidIndex(Report(nets), idx) && s in Numbered(|nets|)[1..]
    ensures IsTerm(idx, LINE, {}, s)
  {
    hide ValidIndex;
    var ids := Numbered(|nets|);
    PlainIndex(ids, nets, idx);
    var i :| 1 <= i < |ids| && ids[i] == s;
    assert idx.net[ids[i]] == nets[i] && idx.date[ids[i]] == 0;
  }

  lemma FirstIsWhole(nets: seq<int>, idx: Index)
    requires WholeFirst(nets) && ValidIndex(Report(nets), idx)
    ensures idx.sids == [1] + Numbered(|nets|)[1..]
    ensures 1 in idx.net && idx.net[1] == CREDIT && WithinWindow(idx, 1, LINE)
  {
    hide ValidIndex;
    var ids := Numbered(|nets|);
    PlainIndex(ids, nets, idx);
    assert ids == [1] + ids[1..] && ids[0] == 1;
    assert idx.net[ids[0]] == nets[0] && idx.date[ids[0]] == 0;
  }

  lemma ItemsOfRest(nets: seq<int>, idx: Index)
    requires WholeFirst(nets) && ValidIndex(Report(nets), idx)
    ensures var pool := ItemsOf(idx, Numbered(|nets|)[1..]);
            |pool| == |nets| - 1 && forall i :: 0 <= i < |pool| ==> pool[i] == Item(i + 2, nets[i + 1])
  {
    hide ValidIndex;
    var ids := Numbered(|nets|);
    PlainIndex(ids, nets, idx);
    forall i | 0 <= i < |nets| - 1
      ensures Item(ids[1..][i], NetAt(idx, ids[1..][i])) == Item(i + 2, nets[i + 1])
    {
      assert ids[1..][i] == ids[i + 1];
    }
  }

  /** Settlement 1 is the one single match, and the others are the terms, in report order. */
  lemma PoolOfReport(nets: seq<int>, idx: Index)
    requires WholeFirst(nets) && ValidIndex(Report(nets), idx)
    ensures Singles(idx, LINE, {}) == [1]
    ensures var pool := ItemsOf(idx, Terms(idx, LINE, {}));
            |pool| == |nets| - 1 && forall i :: 0 <= i < |pool| ==> pool[i] == Item(i + 2, nets[i + 1])
  {
    hide ValidIndex, Singles, Terms, IsTerm, WithinWindow, Numbered, ItemsOf;
    var rest := Numbered(|nets|)[1..];
    FirstIsWhole(nets, idx);
    forall s | s in rest
      ensures IsTerm(idx, LINE, {}, s)
    {
      RestAreTerms(nets, idx, s);
    }
    TermsOfReport(idx, rest);
    SinglesOfReport(nets, idx, rest);
    ItemsOfRest(nets, idx);
  }

  lemma TermsOfReport(idx: Index, rest: seq<int>)
    requires idx.sids == [1] + rest && 1 in idx.net && idx.net[1] == CREDIT
    requires forall s :: s in rest ==> IsTerm(idx, LINE, {}, s)
    ensures Terms(idx, LINE, {}) == rest
  {
    hide Filter;
    var keep := (s: int) => IsTerm(idx, LINE, {}, s);
    FilterConcat([1], rest, keep);
    FilterOne(1, keep);
    FilterAll(rest, keep);
  }

  lemma SinglesOfReport(nets: seq<int>, idx: Index, rest: seq<int>)
    requires ValidIndex(Report(nets), idx)
    requires idx.sids == [1] + rest && 1 in idx.net && idx.net[1] == CREDIT && WithinWindow(idx, 1, LINE)
    requires forall s :: s in rest ==> IsTerm(idx, LINE, {}, s)
    ensures Singles(idx, LINE, {}) == [1]
  {
    hide Filter, ValidIndex;
    var whole := (s: int) => s in idx.net && idx.net[s] == CREDIT;
    IndexedByNet(Report(nets), idx, CREDIT);
    FilterConcat([1], rest, whole);
    FilterOne(1, whole);
    forall s | s in rest
      ensures !whole(s)
    {
      assert IsTerm(idx, LINE, {}, s);
    }
    FilterNone(rest, whole);
    FilterOne(1, (s: int) => s !in {} && WithinWindow(idx, s, LINE));
  }

  lemma OneList(idx: Index)
    requires Singles(idx, LINE, {}) == [1] && SumLists(idx, LINE, {}) == Found([])
    ensures Select(idx, LINE, {}) == Chosen([1])
  {
    hide Singles, SumLists, AsSet;
    var lists := Wrap([1]) + [];
    assert lists == [[1]] && lists[1..] == [];
    assert KeepNew(lists, {}) == [[1]];
  }

  // ----- More than two hundred terms

  /** 20000, 10000, 10000 and 199 settlements of 19999. */
  function ManyNets(): (nets: seq<int>)
    ensures |nets| == 202 && nets[0] == CREDIT && nets[1] == nets[2] == 10000
    ensures forall i :: 3 <= i < 202 ==> nets[i] == 19999
  {
    [CREDIT, 10000, 10000] + seq(199, i => 19999)
  }

  /** The concrete failure: with 201 terms no sum is searched, so settlement 1 is chosen although
      settlements 2 and 3 make the amount too. */
  lemma PairIsNotSearched(idx: Index)
    requires ValidIndex(Report(ManyNets()), idx)
    ensures Select(idx, LINE, {}) == Chosen([1])
    ensures IsSum(ItemsOf(idx, Terms(idx, LINE, {})), CREDIT, [Item(2, 10000), Item(3, 10000)])
  {
    hide ValidIndex, Singles, Terms, Select, SetSum;
    PoolOfReport(ManyNets(), idx);
    OneList(idx);
    var pool := ItemsOf(idx, Terms(idx, LINE, {}));
    var t := [Item(2, 10000), Item(3, 10000)];
    PairTotal(t[0], t[1]);
    assert pool[0] == t[0] && pool[1] == t[1];
  }

  // ----- More than sixteen terms

  /** 20000, four settlements of 5000 and thirteen of 19999. */
  function FourNets(): (nets: seq<int>)
    ensures |nets| == 18 && nets[0] == CREDIT && nets[1] == nets[2] == nets[3] == nets[4] == 5000
    ensures forall i :: 5 <= i < 18 ==> nets[i] == 19999
  {
    [CREDIT, 5000, 5000, 5000, 5000] + seq(13, i => 19999)
  }

  /** Two or three of 5000 and 19999 never make the credit. */
  lemma NoShortSum(pool: seq<Item>)
    requires DistinctIds(pool) && Positive(pool) && |pool| > SETSUM_EXPANSION_MAX_CANDIDATES
    requires forall x :: x in pool ==> x.value == 5000 || x.value == 19999
    ensures SetSum(pool, CREDIT) == Found([])
  {
    hide Visits, Fresh, SetSum, IdSet, Total;
    SetSumLists(pool, CREDIT);
    var listed := Listed(pool, CREDIT);
    if listed != [] {
      var c := listed[0];
      assert c in listed;
      VisitShape(pool, CREDIT, c);
      SelectionTotal(c);
    }
  }

  lemma TotalOfFour(a: Item, b: Item, c: Item, d: Item)
    ensures Total([a, b, c, d]) == a.value + b.value + c.value + d.value
  {
    assert [a, b, c, d][1..] == [b, c, d];
    TripleTotal(b, c, d);
  }

  /** The concrete failure: above sixteen terms only two and three are summed, so settlement 1 is chosen
      although settlements 2 to 5 make the amount too. */
  lemma FourTermsAreNotSearched(idx: Index)
    requires ValidIndex(Report(FourNets()), idx)
    ensures Select(idx, LINE, {}) == Chosen([1])
    ensures IsSum(ItemsOf(idx, Terms(idx, LINE, {})), CREDIT,
                  [Item(2, 5000), Item(3, 5000), Item(4, 5000), Item(5, 5000)])
  {
    hide ValidIndex, Singles, Terms, Select, SetSum, Total;
    PoolOfReport(FourNets(), idx);
    var pool := ItemsOf(idx, Terms(idx, LINE, {}));
    NoShortSum(pool);
    OneList(idx);
    var t := [Item(2, 5000), Item(3, 5000), Item(4, 5000), Item(5, 5000)];
    TotalOfFour(t[0], t[1], t[2], t[3]);
    assert pool[0] == t[0] && pool[1] == t[1] && pool[2] == t[2] && pool[3] == t[3];
  }
}
