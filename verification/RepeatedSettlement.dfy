/** A report on which one settlement is counted twice, and what follows from it. */
module RepeatedSettlement {
  import opened Options
  import opened Sequences
  import opened SubsetSearch
  import opened LegacySubsets
  import opened LegacyProperties
  import opened KeySets
  import opened SettlementGroups
  import opened Reconcile
  import opened ReconcileRun
  import opened TwoPass
  import opened Reconciliation
  import opened PlainReports
  import ResultEvidence
  import SumEvidence
  import SplitLegs
  import CoveredRows

  // ----- Pools where the inverted pair is the only match

  /** The pool starts with a pair out of id order that makes the target with its first item counted
      twice, and every other item is too large to combine with anything. */
  predicate OnlyInverted(pool: seq<Item>, target: int) {
    && |pool| >= 2 && DistinctIds(pool) && Positive(pool)
    && pool[0].id > pool[1].id && 2 * pool[0].value + pool[1].value == target
    && forall i :: 2 <= i < |pool| ==>
         pool[i].value + pool[0].value > target && pool[i].value + pool[1].value > target && 2 * pool[i].value > target
  }

  lemma SmallItem(pool: seq<Item>, target: int, x: Item, y: Item)
    requires OnlyInverted(pool, target) && x in pool && y in pool && x.value + y.value <= target
    ensures x == pool[0] || x == pool[1]
  {
    var i := PositionOf(pool, x);
    var j := PositionOf(pool, y);
    assert j >= 2 ==> 2 * pool[j].value > target;
  }

  lemma OnlyVisit(pool: seq<Item>, target: int, c: seq<Item>)
    requires OnlyInverted(pool, target) && c in Visits(pool, target)
    ensures c == [pool[0], pool[1], pool[0]]
  {
    hide PairsFrom, TriplesFrom, OnlyInverted;
    PairsMember(pool, pool, target, c);
    TriplesMember(pool, pool, target, c);
    if IsPairVisit(pool, pool, target, c) {
      SmallItem(pool, target, c[0], c[1]);
      SmallItem(pool, target, c[1], c[0]);
      PairIsShort(pool, target);
    } else {
      var i, j :| 0 <= i < j < |pool| && IsThirdVisit(pool, pool[i], pool[j], target, c);
      ThirdVisitItems(pool, target, i, j, c);
    }
  }

  lemma PairIsShort(pool: seq<Item>, target: int)
    requires OnlyInverted(pool, target)
    ensures pool[0].id > pool[1].id && pool[0].value + pool[1].value < target
  {
  }

  lemma ThirdVisitItems(pool: seq<Item>, target: int, i: nat, j: nat, c: seq<Item>)
    requires OnlyInverted(pool, target) && i < j < |pool| && IsThirdVisit(pool, pool[i], pool[j], target, c)
    ensures c == [pool[0], pool[1], pool[0]]
  {
    var k := PositionOf(pool, c[2]);
    assert pool[i].value > 0 && pool[j].value > 0 && pool[k].value > 0;
    SmallItem(pool, target, pool[i], pool[j]);
    SmallItem(pool, target, pool[j], pool[i]);
    SmallItem(pool, target, pool[k], pool[i]);
    assert i == 0 && j == 1;
  }

  lemma OnlyKept(pool: seq<Item>, target: int)
    requires OnlyInverted(pool, target)
    ensures Fresh(Visits(pool, target), {}) == [[pool[0], pool[1], pool[0]]]
  {
    hide Visits, Fresh, IdSet;
    var kept, c := Fresh(Visits(pool, target), {}), [pool[0], pool[1], pool[0]];
    InvertedIsVisited(pool, target, 0, 1);
    FreshKeepsOne(Visits(pool, target), {}, c);
    FreshKeysDiffer(Visits(pool, target), {});
    assert |kept| > 1 ==> KeysDiffer(kept[0], kept[1]);
    forall i | 0 <= i < |kept|
      ensures kept[i] == c
    {
      assert kept[i] in kept;
      OnlyVisit(pool, target, kept[i]);
    }
    assert |kept| == 1;
  }

  /** The search over such a pool of more than sixteen offers that list alone. */
  lemma OnlyOffered(pool: seq<Item>, target: int)
    requires OnlyInverted(pool, target) && |pool| > SETSUM_EXPANSION_MAX_CANDIDATES
    ensures SetSum(pool, target) == Found([[pool[0].id, pool[1].id, pool[0].id]])
    ensures Inverted(pool, target)
  {
    hide Visits, Fresh, SetSum;
    OnlyKept(pool, target);
    SetSumLists(pool, target);
    var c := [pool[0], pool[1], pool[0]];
    assert Ids(c) == [pool[0].id, pool[1].id, pool[0].id];
    assert AllIds(Take([c], 2)) == [Ids(c)];
  }

  // ----- The report

  const PLACES := 17
  const CREDIT := 20000

  /** Ids 2, 1, 3, ..., 17 in report order. */
  function IdAtPlace(i: nat): int {
    if i == 0 then 2 else if i == 1 then 1 else i + 1
  }

  function NetAtPlace(i: nat): int {
    if i == 0 then 5000 else if i == 1 then 10000 else 19999
  }

  function Report(): (rows: seq<ReconRow>) {
    PlainRows(ReportIds(), ReportNets())
  }

  function ReportIds(): (ids: seq<int>)
    ensures |ids| == PLACES && forall i :: 0 <= i < PLACES ==> ids[i] == IdAtPlace(i)
  {
    seq(PLACES, i requires 0 <= i < PLACES => IdAtPlace(i))
  }

  function ReportNets(): (nets: seq<int>)
    ensures |nets| == PLACES && forall i :: 0 <= i < PLACES ==> nets[i] == NetAtPlace(i)
  {
    seq(PLACES, i requires 0 <= i < PLACES => NetAtPlace(i))
  }

  const LINE := Line(1, CREDIT, 0, [])

  lemma IdsDiffer()
    ensures NoRepeats(ReportIds())
  {
  }

  lemma IndexOfReport(idx: Index)
    requires ValidIndex(Report(), idx)
    ensures idx.sids == ReportIds()
    ensures forall i :: 0 <= i < PLACES ==>
              IdAtPlace(i) in idx.net && idx.net[IdAtPlace(i)] == NetAtPlace(i)
              && IdAtPlace(i) in idx.date && idx.date[IdAtPlace(i)] == 0
  {
    hide ValidIndex;
    IdsDiffer();
    PlainIndex(ReportIds(), ReportNets(), idx);
    assert forall i :: 0 <= i < PLACES ==> ReportIds()[i] == IdAtPlace(i) && ReportNets()[i] == NetAtPlace(i);
  }

  lemma PoolOfReport(idx: Index)
    requires ValidIndex(Report(), idx)
    ensures var pool := ItemsOf(idx, Terms(idx, LINE, {}));
            && |pool| == PLACES && OnlyInverted(pool, CREDIT) && pool[0].id == 2 && pool[1].id == 1
    ensures Singles(idx, LINE, {}) == []
  {
    hide ValidIndex, Filter;
    IndexOfReport(idx);
    forall s | s in idx.sids
      ensures IsTerm(idx, LINE, {}, s)
    {
      var i :| 0 <= i < PLACES && ReportIds()[i] == s;
      assert idx.net[IdAtPlace(i)] == NetAtPlace(i);
    }
    FilterAll(idx.sids, (s: int) => IsTerm(idx, LINE, {}, s));
    var pool := ItemsOf(idx, idx.sids);
    assert forall i :: 0 <= i < PLACES ==> pool[i] == Item(IdAtPlace(i), NetAtPlace(i));
    NoSingles(idx);
  }

  lemma NoSingles(idx: Index)
    requires ValidIndex(Report(), idx) && forall s :: s in idx.sids ==> IsTerm(idx, LINE, {}, s)
    ensures Singles(idx, LINE, {}) == []
  {
    hide ValidIndex, Filter;
    var singles := Singles(idx, LINE, {});
    IndexFacts(Report(), idx);
    if singles != [] {
      assert singles[0] in singles;
      SingleFacts(Report(), idx, LINE, {}, singles[0]);
    }
  }

  /** The concrete failure: the credit of 20000 is matched to settlements 2, 1 and 2 again. */
  lemma ChosenRepeats(idx: Index)
    requires ValidIndex(Report(), idx)
    ensures Select(idx, LINE, {}) == Chosen([2, 1, 2])
    ensures ManyInverted(idx, LINE, {})
  {
    hide ValidIndex, SetSum, Singles, Terms, Inverted, AsSet;
    PoolOfReport(idx);
    OnlyOffered(ItemsOf(idx, Terms(idx, LINE, {})), CREDIT);
    var lists := Wrap(Singles(idx, LINE, {})) + [[2, 1, 2]];
    assert lists == [[2, 1, 2]] && lists[1..] == [];
    assert KeepNew(lists, {}) == [[2, 1, 2]];
  }

  /** So on this report the run meets the condition under which the covered net is overstated. */
  lemma ReportDoubles(idx: Index)
    requires ValidIndex(Report(), idx)
    ensures KeyedLines([LINE]) && Doubles(Report(), idx, [LINE])
  {
    hide ValidIndex, Select, ManyInverted, ClaimResult;
    var rzp := [LINE];
    ChosenRepeats(idx);
    NothingClaimed(idx);
    assert rzp[..0] == [];
    assert DoublesAt(idx, Held(idx, rzp), Turn({}, {}), rzp, 0);
  }

  lemma NothingClaimed(idx: Index)
    requires ValidIndex(Report(), idx)
    ensures Held(idx, [LINE]) == {} && Taken(Report(), idx, [LINE]) == {} && TakenKeys(Report(), idx, [LINE]) == {}
  {
    hide ValidIndex, MakeResult;
    forall s
      ensures Claims(idx, [LINE], s) == []
    {
      FilterNone([LINE], (l: Line) => UtrSid(idx, l.utrs) == Some(s));
    }
    assert Taken(Report(), idx, [LINE]) == {};
  }

  /** The result made for that credit overstates the covered net: with the uncredited net it exceeds the
      net of the report. */
  lemma NetIsOverstated(idx: Index)
    requires ValidIndex(Report(), idx)
    ensures var made := MakeResult(Report(), idx, LINE, [2, 1, 2]);
            && made.Some? && made.value.residual == 0
            && NetSum(idx, idx.sids)
                 < CoveredTotal([made.value]) + NetSum(idx, Uncredited(idx, UsedBy([made.value])))
  {
    hide ValidIndex, Select, MakeResult, WellMade, ManyInverted, Ledger, UsedBy, NetSum, CoveredTotal, Uncredited,
         AsSet;
    ChosenRepeats(idx);
    ChosenBalances(Report(), idx, LINE, {});
    var r := MakeResult(Report(), idx, LINE, [2, 1, 2]).value;
    LedgerStart(idx);
    assert AsSet(r.sids) !! {};
    LedgerAdd(idx, [], {}, {}, r);
    assert [] + [r] == [r];
    LedgerSets(idx, [r], {} + AsSet(r.sids), {} + {r.key});
    NetIsConserved(Report(), idx, [r], UsedBy([r]), KeysOf([r]));
    assert r in [r] && r.sids[0] == r.sids[2];
  }

  /** And the row ids of that credit's result never resolve, in any order of the report. */
  lemma RowIdsAreRefused(idx: Index, rows': seq<ReconRow>, d: CoveredRows.Digest,
                         byId: map<CoveredRows.CanonicalId, ReconRow>)
    requires ValidIndex(Report(), idx) && CoveredRows.CollisionFree(d)
    requires multiset(Report()) == multiset(rows') && CoveredRows.IsIndex(rows', d, byId)
    ensures var made := MakeResult(Report(), idx, LINE, [2, 1, 2]);
            && made.Some? && CoveredRows.InReport(Report(), made.value.positions)
            && CoveredRows.ResolvedBy(CoveredRows.CoverRows(Report(), d, made.value.positions), byId)
               == CoveredRows.Refused(CoveredRows.DuplicateRowId)
  {
    hide ValidIndex, Select, MakeResult, WellMade, CoveredRows.IsIndex, CoveredRows.ResolvedBy,
         CoveredRows.CollisionFree,
         ManyInverted;
    ChosenRepeats(idx);
    ChosenBalances(Report(), idx, LINE, {});
    var r := MakeResult(Report(), idx, LINE, [2, 1, 2]).value;
    assert r.sids == [2, 1, 2];
    assert r.sids[0] == r.sids[2] && !NoRepeats(r.sids);
    ResultEvidence.ResultResolvesExactlyWhen(Report(), idx, r, rows', d, byId);
  }

  // ----- The same settlements as evidence for attribution

  function Payouts(): (ss: seq<SplitLegs.Payout>)
    ensures |ss| == PLACES
    ensures forall i :: 0 <= i < PLACES ==> ss[i] == SplitLegs.Payout(IdAtPlace(i), NetAtPlace(i), Some(0))
  {
    seq(PLACES, i requires 0 <= i < PLACES => SplitLegs.Payout(IdAtPlace(i), NetAtPlace(i), Some(0)))
  }

  lemma PartsOfPayouts()
    ensures var pool := SumEvidence.Parts(CREDIT, 0, Payouts());
            |pool| == PLACES && OnlyInverted(pool, CREDIT) && SplitLegs.DistinctSids(Payouts())
    ensures SumEvidence.Wholes(CREDIT, 0, Payouts()) == []
  {
    hide Filter;
    var ss := Payouts();
    FilterAll(ss, (s: SplitLegs.Payout) => SumEvidence.IsPart(CREDIT, 0, s));
    FilterNone(ss, (s: SplitLegs.Payout) => s.net == CREDIT && SumEvidence.Near(0, s));
    var pool := SumEvidence.Parts(CREDIT, 0, ss);
    assert forall i :: 0 <= i < PLACES ==> pool[i] == Item(IdAtPlace(i), NetAtPlace(i));
  }

  /** The concrete failure: a sum is found although no distinct settlements make it. */
  lemma FoundSumIsNotGenuine()
    ensures SumEvidence.SumFinding(true, CREDIT, 0, Payouts()) == SumEvidence.SumFound
    ensures !exists t :: SumEvidence.GenuineSum(CREDIT, 0, Payouts(), t)
  {
    hide SumEvidence.Parts, SumEvidence.Wholes, SetSum, Inverted, SumEvidence.GenuineSum, OnlyInverted;
    PartsOfPayouts();
    OnlyOffered(SumEvidence.Parts(CREDIT, 0, Payouts()), CREDIT);
    SumEvidence.FoundSumIsGenuineExactlyWhen(CREDIT, 0, Payouts());
  }
}
