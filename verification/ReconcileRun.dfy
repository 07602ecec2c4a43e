/** The reconciliation run: reference-decisive claims first, then amounts and sums. */
module ReconcileRun {
  import opened Options
  import opened Sequences
  import opened SettlementGroups
  import opened Reconcile
  import CoveredRows

  /** A balanced reconciliation: the credit, the settlements it covers and the residual. */
  datatype Result = Result(key: int, sids: seq<int>, positions: seq<nat>, coveredNet: int, amount: int, residual: int)

  function PositionsAt(idx: Index, s: int): seq<nat> {
    if s in idx.rowsBySid then idx.rowsBySid[s] else []
  }

  function CoveredPositions(idx: Index, sids: seq<int>): seq<nat> {
    if sids == [] then [] else PositionsAt(idx, sids[0]) + CoveredPositions(idx, sids[1..])
  }

  lemma {:induction false} CoveredInReport(rows: seq<ReconRow>, idx: Index, sids: seq<int>)
    requires ValidIndex(rows, idx)
    ensures CoveredRows.InReport(rows, CoveredPositions(idx, sids))
    ensures SumNet(rows, CoveredPositions(idx, sids)) == NetSum(idx, sids)
  {
    hide ValidIndex, PositionsAt, NetAt, SumNet;
    if sids == [] {
      NothingCovered(rows);
    } else {
      CoveredInReport(rows, idx, sids[1..]);
      PositionsOfOne(rows, idx, sids[0]);
      SumNetConcat(rows, PositionsAt(idx, sids[0]), CoveredPositions(idx, sids[1..]));
    }
  }

  lemma NothingCovered(rows: seq<ReconRow>)
    ensures SumNet(rows, []) == 0
  {
  }

  lemma PositionsOfOne(rows: seq<ReconRow>, idx: Index, s: int)
    requires ValidIndex(rows, idx)
    ensures CoveredRows.InReport(rows, PositionsAt(idx, s)) && SumNet(rows, PositionsAt(idx, s)) == NetAt(idx, s)
  {
    hide WithNet, SidOfUtr, DateOf;
    assert s in idx.sids <==> s in idx.rowsBySid;
    assert s in idx.sids <==> s in idx.net;
    if s in idx.rowsBySid {
      assert idx.rowsBySid[s] == PositionsOf(rows, s);
    }
  }

  /** `_make_result`: none when the residual is out of tolerance. */
  function MakeResult(rows: seq<ReconRow>, idx: Index, line: Line, sids: seq<int>): Option<Result>
    requires ValidIndex(rows, idx)
  {
    CoveredInReport(rows, idx, sids);
    var positions := CoveredPositions(idx, sids);
    var coveredNet := SumNet(rows, positions);
    var residual := line.amount - coveredNet;
    if -DRIFT_TOLERANCE_PAISE <= residual <= DRIFT_TOLERANCE_PAISE then
      Some(Result(line.key, sids, positions, coveredNet, line.amount, residual))
    else None
  }

  /** A result is made exactly when the credit is within 100 paise of the settlements' net. */
  lemma MadeExactlyWhen(rows: seq<ReconRow>, idx: Index, line: Line, sids: seq<int>)
    requires ValidIndex(rows, idx)
    ensures MakeResult(rows, idx, line, sids).Some? <==> -100 <= line.amount - NetSum(idx, sids) <= 100
    ensures MakeResult(rows, idx, line, sids).Some? ==>
              var r := MakeResult(rows, idx, line, sids).value;
              && r.key == line.key && r.sids == sids && r.amount == line.amount
              && r.coveredNet == NetSum(idx, sids) && r.residual == line.amount - r.coveredNet
  {
    hide ValidIndex;
    CoveredInReport(rows, idx, sids);
  }

  // ----- What every step of the run keeps

  /** A result covers settlements of the report, at their exact net, within the drift. */
  predicate WellMade(idx: Index, r: Result) {
    && r.sids != [] && (forall s :: s in r.sids ==> s in idx.net)
    && r.positions == CoveredPositions(idx, r.sids)
    && r.coveredNet == NetSum(idx, r.sids) && r.residual == r.amount - r.coveredNet
    && -DRIFT_TOLERANCE_PAISE <= r.residual <= DRIFT_TOLERANCE_PAISE
    && (|r.sids| > 1 ==> forall s :: s in r.sids ==> NetAt(idx, s) > 0)
  }

  predicate Apart(a: Result, b: Result) {
    a.key != b.key && AsSet(a.sids) !! AsSet(b.sids)
  }

  function UsedBy(results: seq<Result>): (used: set<int>)
    ensures forall r :: r in results ==> AsSet(r.sids) <= used
  {
    if results == [] then {}
    else
      assert forall r :: r in results ==> r in results[..|results| - 1] || r == results[|results| - 1];
      UsedBy(results[..|results| - 1]) + AsSet(results[|results| - 1].sids)
  }

  function KeysOf(results: seq<Result>): set<int> {
    set r | r in results :: r.key
  }

  /** No settlement serves two results and no credit has two. */
  ghost predicate Ledger(idx: Index, results: seq<Result>, used: set<int>, resolved: set<int>) {
    && (forall r :: r in results ==> WellMade(idx, r))
    && Pairwise(results, Apart)
    && used == UsedBy(results) && resolved == KeysOf(results)
  }

  lemma LedgerStart(idx: Index)
    ensures Ledger(idx, [], {}, {})
  {
    assert UsedBy([]) == {} && KeysOf([]) == {};
  }

  lemma LedgerAdd(idx: Index, results: seq<Result>, used: set<int>, resolved: set<int>, r: Result)
    requires Ledger(idx, results, used, resolved) && WellMade(idx, r)
    requires r.key !in resolved && AsSet(r.sids) !! used
    ensures Ledger(idx, results + [r], used + AsSet(r.sids), resolved + {r.key})
  {
    hide WellMade, AsSet, UsedBy, KeysOf, Apart;
    var more := results + [r];
    forall x | x in results
      ensures Apart(x, r)
    {
      ApartFromAll(results, x, r);
    }
    forall i, j | 0 <= i < j < |more|
      ensures Apart(more[i], more[j])
    {
      assert more[i] in results;
    }
    assert forall x :: x in more <==> x in results || x == r;
    UsedByAdd(results, r);
  }

  lemma ApartFromAll(results: seq<Result>, x: Result, r: Result)
    requires x in results && r.key !in KeysOf(results) && AsSet(r.sids) !! UsedBy(results)
    ensures Apart(x, r)
  {
    assert x.key in KeysOf(results) && AsSet(x.sids) <= UsedBy(results);
  }

  lemma UsedByAdd(results: seq<Result>, r: Result)
    ensures UsedBy(results + [r]) == UsedBy(results) + AsSet(r.sids)
    ensures KeysOf(results + [r]) == KeysOf(results) + {r.key}
  {
    hide AsSet;
    var more := results + [r];
    assert more[..|more| - 1] == results;
    assert forall x :: x in more <==> x in results || x == r;
  }

  lemma MadeIsWellMade(rows: seq<ReconRow>, idx: Index, line: Line, sids: seq<int>)
    requires ValidIndex(rows, idx) && MakeResult(rows, idx, line, sids).Some? && sids != []
    requires (forall s :: s in sids ==> s in idx.net) && (|sids| > 1 ==> forall s :: s in sids ==> NetAt(idx, s) > 0)
    ensures var r := MakeResult(rows, idx, line, sids).value;
            WellMade(idx, r) && r.key == line.key && r.sids == sids && r.amount == line.amount
  {
    hide ValidIndex;
    CoveredInReport(rows, idx, sids);
  }

  // ----- Conservation

  /** `sids` with each settlement once. */
  function Once(sids: seq<int>): (r: seq<int>)
    ensures forall s :: s in r <==> s in sids
    ensures NoRepeats(r)
  {
    if sids == [] then []
    else
      assert forall s :: s in sids <==> s == sids[0] || s in sids[1..];
      if sids[0] in sids[1..] then Once(sids[1..]) else [sids[0]] + Once(sids[1..])
  }

  /** Repeating a settlement of positive net counts it again. */
  lemma {:induction false} OnceCounts(idx: Index, sids: seq<int>)
    requires forall i :: 0 <= i < |sids| ==> |sids| > 1 ==> NetAt(idx, sids[i]) > 0
    ensures NoRepeats(sids) ==> Once(sids) == sids
    ensures NetSum(idx, Once(sids)) <= NetSum(idx, sids)
    ensures NetSum(idx, Once(sids)) == NetSum(idx, sids) <==> NoRepeats(sids)
    decreases sids
  {
    if |sids| > 1 {
      OnceCountsTail(idx, sids);
    }
  }

  lemma {:induction false} OnceCountsTail(idx: Index, sids: seq<int>)
    requires forall i :: 0 <= i < |sids| ==> NetAt(idx, sids[i]) > 0
    ensures NoRepeats(sids) ==> Once(sids) == sids
    ensures NetSum(idx, Once(sids)) <= NetSum(idx, sids)
    ensures NetSum(idx, Once(sids)) == NetSum(idx, sids) <==> NoRepeats(sids)
    decreases sids, 0
  {
    hide NetAt, NetSum, Once;
    OnceUnfold(sids);
    NetSumUnfold(idx, sids);
    if sids == [] {
      NetSumUnfold(idx, Once(sids));
    } else {
      var rest := sids[1..];
      OnceCountsTail(idx, rest);
      if sids[0] in rest {
        var i :| 0 <= i < |rest| && rest[i] == sids[0];
        assert sids[0] == sids[i + 1];
      } else {
        NetSumUnfold(idx, Once(sids));
        NoRepeatsStep(sids);
      }
    }
  }

  lemma OnceUnfold(sids: seq<int>)
    ensures sids == [] ==> Once(sids) == []
    ensures sids != [] && sids[0] in sids[1..] ==> Once(sids) == Once(sids[1..])
    ensures sids != [] && sids[0] !in sids[1..] ==>
              Once(sids) == [sids[0]] + Once(sids[1..]) && Once(sids)[1..] == Once(sids[1..])
    ensures sids != [] ==> sids == [sids[0]] + sids[1..]
  {
  }

  lemma NetSumUnfold(idx: Index, sids: seq<int>)
    ensures NetSum(idx, sids) == if sids == [] then 0 else NetAt(idx, sids[0]) + NetSum(idx, sids[1..])
  {
  }

  lemma NoRepeatsStep(sids: seq<int>)
    requires sids != [] && sids[0] !in sids[1..]
    ensures NoRepeats(sids) <==> NoRepeats(sids[1..])
  {
    assert forall i :: 0 <= i < |sids[1..]| ==> sids[1..][i] == sids[i + 1];
    if NoRepeats(sids[1..]) {
      forall i, j | 0 <= i < j < |sids|
        ensures sids[i] != sids[j]
      {
        assert sids[j] == sids[1..][j - 1];
      }
    }
  }

  lemma {:induction false} NetSumConcat(idx: Index, a: seq<int>, b: seq<int>)
    ensures NetSum(idx, a + b) == NetSum(idx, a) + NetSum(idx, b)
  {
    if a == [] {
      assert a + b == b;
    } else {
      NetSumConcat(idx, a[1..], b);
      assert (a + b)[1..] == a[1..] + b;
    }
  }

  lemma NetSumDrop(idx: Index, a: seq<int>, i: nat)
    requires i < |a|
    ensures NetSum(idx, a) == NetAt(idx, a[i]) + NetSum(idx, Drop(a, i))
  {
    SplitAt(a, i);
    NetSumConcat(idx, a[..i], [a[i]] + a[i + 1..]);
    NetSumConcat(idx, [a[i]], a[i + 1..]);
    NetSumConcat(idx, a[..i], a[i + 1..]);
    NetSumOfOne(idx, a[i]);
  }

  /** Two lists without repeats of the same settlements have the same total net. */
  lemma {:induction false} SameSettlementsSameNet(idx: Index, a: seq<int>, b: seq<int>)
    requires NoRepeats(a) && NoRepeats(b) && AsSet(a) == AsSet(b)
    ensures NetSum(idx, a) == NetSum(idx, b)
    decreases a
  {
    hide NetSum, NetAt;
    if a == [] {
      NonEmptySet(b);
    } else {
      assert a[0] in AsSet(a);
      var i :| 0 <= i < |b| && b[i] == a[0];
      DropOne(a, 0);
      DropOne(b, i);
      NetSumDrop(idx, a, 0);
      NetSumDrop(idx, b, i);
      SameSettlementsSameNet(idx, Drop(a, 0), Drop(b, i));
    }
  }

  lemma NonEmptySet(b: seq<int>)
    ensures b != [] ==> AsSet(b) != {}
  {
    if b != [] {
      assert b[0] in AsSet(b);
    }
  }

  lemma DropOne(a: seq<int>, i: nat)
    requires NoRepeats(a) && i < |a|
    ensures NoRepeats(Drop(a, i)) && AsSet(Drop(a, i)) == AsSet(a) - {a[i]}
  {
    var d := Drop(a, i);
    forall s
      ensures s in d <==> s in a && s != a[i]
    {
      if s in a && s != a[i] {
        var j :| 0 <= j < |a| && a[j] == s;
        assert d[if j < i then j else j - 1] == s;
      }
      if s in d {
        var j :| 0 <= j < |d| && d[j] == s;
        assert s == a[if j < i then j else j + 1];
      }
    }
  }

  /** All settlements covered, each once per result. */
  function AllOnce(results: seq<Result>): seq<int> {
    if results == [] then [] else AllOnce(results[..|results| - 1]) + Once(results[|results| - 1].sids)
  }

  function CoveredTotal(results: seq<Result>): int {
    if results == [] then 0 else CoveredTotal(results[..|results| - 1]) + results[|results| - 1].coveredNet
  }

  ghost predicate NeverRepeats(results: seq<Result>) {
    forall r :: r in results ==> NoRepeats(r.sids)
  }

  lemma {:induction false} AllOnceFacts(idx: Index, results: seq<Result>)
    requires (forall r :: r in results ==> WellMade(idx, r)) && Pairwise(results, Apart)
    ensures NoRepeats(AllOnce(results)) && AsSet(AllOnce(results)) == UsedBy(results)
    ensures NetSum(idx, AllOnce(results)) <= CoveredTotal(results)
    ensures NetSum(idx, AllOnce(results)) == CoveredTotal(results) <==> NeverRepeats(results)
  {
    hide NetSum, Once, AsSet, NoRepeats;
    if results == [] {
      AllOnceEmpty(idx);
    } else {
      var front, r := results[..|results| - 1], results[|results| - 1];
      assert results == front + [r] && r in results;
      assert forall x :: x in front ==> Apart(x, r);
      AllOnceFacts(idx, front);
      WellMadeOnce(idx, r);
      NetSumConcat(idx, AllOnce(front), Once(r.sids));
      UsedApart(front, r);
      JoinOnce(AllOnce(front), Once(r.sids));
    }
  }

  lemma AllOnceEmpty(idx: Index)
    ensures NoRepeats([]) && AsSet([]) == {} && NetSum(idx, []) == 0
  {
  }

  lemma WellMadeOnce(idx: Index, r: Result)
    requires WellMade(idx, r)
    ensures NoRepeats(Once(r.sids)) && AsSet(Once(r.sids)) == AsSet(r.sids)
    ensures NetSum(idx, Once(r.sids)) <= r.coveredNet
    ensures NetSum(idx, Once(r.sids)) == r.coveredNet <==> NoRepeats(r.sids)
  {
    assert forall i :: 0 <= i < |r.sids| ==> r.sids[i] in r.sids;
    OnceCounts(idx, r.sids);
  }

  lemma {:induction false} UsedApart(results: seq<Result>, r: Result)
    requires forall x :: x in results ==> Apart(x, r)
    ensures UsedBy(results) !! AsSet(r.sids)
  {
    hide AsSet;
    if results != [] {
      var n := |results| - 1;
      assert results[n] in results && forall x :: x in results[..n] ==> x in results;
      UsedApart(results[..n], r);
    }
  }

  lemma JoinOnce(a: seq<int>, b: seq<int>)
    requires NoRepeats(a) && NoRepeats(b) && AsSet(a) !! AsSet(b)
    ensures NoRepeats(a + b) && AsSet(a + b) == AsSet(a) + AsSet(b)
  {
    forall i, j | 0 <= i < |a| && 0 <= j < |b|
      ensures a[i] != b[j]
    {
      assert a[i] in AsSet(a) && b[j] in AsSet(b);
    }
  }

  function Uncredited(idx: Index, used: set<int>): seq<int> {
    Filter(idx.sids, (s: int) => s !in used)
  }

  lemma {:induction false} NetSumSplits(idx: Index, sids: seq<int>, used: set<int>)
    ensures NetSum(idx, sids) == NetSum(idx, Filter(sids, (s: int) => s in used))
              + NetSum(idx, Filter(sids, (s: int) => s !in used))
  {
    hide Filter, NetAt;
    FilterUnfold(sids, (s: int) => s in used);
    FilterUnfold(sids, (s: int) => s !in used);
    if sids != [] {
      NetSumSplits(idx, sids[1..], used);
      NetSumConcat(idx, if sids[0] in used then [sids[0]] else [], Filter(sids[1..], (s: int) => s in used));
      NetSumConcat(idx, if sids[0] !in used then [sids[0]] else [], Filter(sids[1..], (s: int) => s !in used));
      NetSumOfOne(idx, sids[0]);
    }
  }

  /** Conservation: the report's total net is the covered net plus the uncredited net if and only if
      no result names a settlement twice; otherwise the covered net is overstated. */
  lemma NetIsConserved(rows: seq<ReconRow>, idx: Index, results: seq<Result>, used: set<int>, resolved: set<int>)
    requires ValidIndex(rows, idx) && Ledger(idx, results, used, resolved)
    ensures NetSum(idx, idx.sids) <= CoveredTotal(results) + NetSum(idx, Uncredited(idx, used))
    ensures NetSum(idx, idx.sids) == CoveredTotal(results) + NetSum(idx, Uncredited(idx, used)) <==>
              NeverRepeats(results)
  {
    hide ValidIndex, NetSum, AsSet, NoRepeats, Filter, AllOnce, CoveredTotal, NeverRepeats, UsedBy;
    IndexFacts(rows, idx);
    AllOnceFacts(idx, results);
    NetSumSplits(idx, idx.sids, used);
    UsedIsListed(idx, results);
    UsedFilter(idx, used);
    SameSettlementsSameNet(idx, AllOnce(results), Filter(idx.sids, (s: int) => s in used));
  }

  lemma {:induction false} UsedIsListed(idx: Index, results: seq<Result>)
    requires forall r :: r in results ==> WellMade(idx, r)
    ensures forall s :: s in UsedBy(results) ==> s in idx.net
  {
    hide WellMade;
    if results != [] {
      var n := |results| - 1;
      assert results[n] in results && forall x :: x in results[..n] ==> x in results;
      UsedIsListed(idx, results[..n]);
      WellMadeListed(idx, results[n]);
    }
  }

  lemma WellMadeListed(idx: Index, r: Result)
    requires WellMade(idx, r)
    ensures forall s :: s in AsSet(r.sids) ==> s in idx.net
  {
  }

  lemma UsedFilter(idx: Index, used: set<int>)
    requires NoRepeats(idx.sids) && (forall x :: x in idx.sids <==> x in idx.net)
    requires (forall s :: s in used ==> s in idx.net)
    ensures var f := Filter(idx.sids, (s: int) => s in used); NoRepeats(f) && AsSet(f) == used
  {
    var differ := (a: int, b: int) => a != b;
    assert Pairwise(idx.sids, differ);
    FilterPairwise(idx.sids, (s: int) => s in used, differ);
    var f := Filter(idx.sids, (s: int) => s in used);
    assert Pairwise(f, differ);
    hide Filter;
    forall s | s in used
      ensures s in AsSet(f)
    {
      assert s in idx.sids;
      assert s in f;
    }
  }
}
