/** The covered-row list of a reconciliation result, resolved against another copy of the report. */
module ResultEvidence {
  import opened Options
  import opened Sequences
  import opened SettlementGroups
  import opened Reconcile
  import opened ReconcileRun
  import CoveredRows
  import Investigate
  import Journal
  import JournalBook

  predicate BelongsTo(rows: seq<ReconRow>, p: nat, s: int) {
    p < |rows| && rows[p].settlementId == Some(s)
  }

  lemma PositionsAtFacts(rows: seq<ReconRow>, idx: Index, s: int)
    requires ValidIndex(rows, idx) && s in idx.net
    ensures PositionsAt(idx, s) != [] && forall p :: p in PositionsAt(idx, s) <==> BelongsTo(rows, p, s)
    ensures CoveredRows.DistinctPositions(PositionsAt(idx, s), |rows|)
  {
    hide WithNet, DateOf, SidOfUtr, NetOf;
    assert s in idx.sids;
    assert s in idx.rowsBySid;
    assert PositionsAt(idx, s) == PositionsOf(rows, s);
    hide PositionsOf;
    forall p | p in PositionsOf(rows, s)
      ensures BelongsTo(rows, p, s)
    {
      var q :| 0 <= q < |PositionsOf(rows, s)| && PositionsOf(rows, s)[q] == p;
    }
  }

  lemma {:induction false} CoveredMember(rows: seq<ReconRow>, idx: Index, sids: seq<int>, p: nat)
    requires ValidIndex(rows, idx) && forall s :: s in sids ==> s in idx.net
    ensures p in CoveredPositions(idx, sids) <==> exists s :: s in sids && BelongsTo(rows, p, s)
  {
    hide ValidIndex, PositionsAt;
    if sids != [] {
      assert sids == [sids[0]] + sids[1..];
      PositionsAtFacts(rows, idx, sids[0]);
      CoveredMember(rows, idx, sids[1..], p);
    }
  }

  lemma JoinDistinct(a: seq<nat>, b: seq<nat>, n: nat)
    requires CoveredRows.DistinctPositions(a, n)
    ensures (forall p :: p in a ==> p !in b) ==>
              (CoveredRows.DistinctPositions(a + b, n) <==> CoveredRows.DistinctPositions(b, n))
    ensures (exists p :: p in a && p in b) ==> !CoveredRows.DistinctPositions(a + b, n)
  {
    var c := a + b;
    assert forall q :: 0 <= q < |b| ==> c[|a| + q] == b[q];
    if (forall p :: p in a ==> p !in b) && CoveredRows.DistinctPositions(b, n) {
      forall q, r | 0 <= q < r < |c|
        ensures c[q] != c[r]
      {
        assert r < |a| || c[r] == b[r - |a|];
        assert q < |a| || c[q] == b[q - |a|];
        assert q < |a| <= r ==> a[q] in a && b[r - |a|] in b;
      }
    }
    if CoveredRows.DistinctPositions(c, n) {
      forall q, r | 0 <= q < r < |b|
        ensures b[q] != b[r]
      {
        assert c[|a| + q] != c[|a| + r];
      }
    }
    if p :| p in a && p in b {
      var q :| 0 <= q < |a| && a[q] == p;
      var r :| 0 <= r < |b| && b[r] == p;
      assert c[q] == c[|a| + r];
    }
  }

  /** The rows of a result are listed once exactly when its settlements are. */
  lemma {:induction false} RowsOnceExactlyWhenSettlementsOnce(rows: seq<ReconRow>, idx: Index, sids: seq<int>)
    requires ValidIndex(rows, idx) && forall s :: s in sids ==> s in idx.net
    ensures CoveredRows.DistinctPositions(CoveredPositions(idx, sids), |rows|) <==> NoRepeats(sids)
  {
    hide ValidIndex, PositionsAt, CoveredRows.DistinctPositions;
    if sids == [] {
      NoPositions(rows);
    } else {
      var s, rest := sids[0], sids[1..];
      var a, b := PositionsAt(idx, s), CoveredPositions(idx, rest);
      RowsOnceExactlyWhenSettlementsOnce(rows, idx, rest);
      PositionsAtFacts(rows, idx, s);
      JoinDistinct(a, b, |rows|);
      if s in rest {
        assert a[0] in a;
        CoveredMember(rows, idx, rest, a[0]);
        var i :| 0 <= i < |rest| && rest[i] == s;
        assert sids[0] == sids[i + 1];
      } else {
        NoRepeatsStep(sids);
        forall p | p in a
          ensures p !in b
        {
          CoveredMember(rows, idx, rest, p);
        }
      }
    }
  }

  lemma NoPositions(rows: seq<ReconRow>)
    ensures CoveredRows.DistinctPositions([], |rows|)
  {
  }

  /** A result's row ids resolve in any reordering of the report, to rows with the same net, if and
      only if the result names no settlement twice; otherwise the resolution refuses them. */
  lemma ResultResolvesExactlyWhen(rows: seq<ReconRow>, idx: Index, r: Result, rows': seq<ReconRow>,
                                  d: CoveredRows.Digest,
                                  byId: map<CoveredRows.CanonicalId, ReconRow>)
    requires ValidIndex(rows, idx) && WellMade(idx, r) && CoveredRows.CollisionFree(d)
    requires multiset(rows) == multiset(rows') && CoveredRows.IsIndex(rows', d, byId)
    ensures CoveredRows.InReport(rows, r.positions)
    ensures var found := CoveredRows.ResolvedBy(CoveredRows.CoverRows(rows, d, r.positions), byId);
            && (found.Resolved? <==> NoRepeats(r.sids))
            && (found.Resolved? ==> CoveredRows.Sum(found.rows, (x: ReconRow) => x.Net()) == r.coveredNet)
            && (!NoRepeats(r.sids) ==> found == CoveredRows.Refused(CoveredRows.DuplicateRowId))
  {
    hide ValidIndex, CoveredRows.IsIndex, CoveredRows.ResolvedBy, CoveredRows.Sum, NetSum, SumNet, CoveredPositions,
         NoRepeats,
         CoveredRows.SignatureOf, CoveredRows.CollisionFree;
    RowsOnceExactlyWhenSettlementsOnce(rows, idx, r.sids);
    CoveredInReport(rows, idx, r.sids);
    var found := CoveredRows.ResolvedBy(CoveredRows.CoverRows(rows, d, r.positions), byId);
    if NoRepeats(r.sids) {
      CoveredRows.IdentitySurvivesReordering(rows, rows', d, r.positions, byId);
      var covered := CoveredRows.RowsAt(rows, r.positions);
      CoveredRows.MoneySurvivesReordering(found.rows, covered);
      SumNetIsSum(rows, r.positions);
    } else {
      assert exists q, t :: 0 <= q < t < |r.positions| && r.positions[q] == r.positions[t];
      var q, t :| 0 <= q < t < |r.positions| && r.positions[q] == r.positions[t];
      CoveredRows.RepeatedRowIsRefused(rows, d, r.positions, q, t, byId);
    }
  }

  lemma {:induction false} SumNetIsSum(rows: seq<ReconRow>, ps: seq<nat>)
    requires CoveredRows.InReport(rows, ps)
    ensures SumNet(rows, ps) == CoveredRows.Sum(CoveredRows.RowsAt(rows, ps), (x: ReconRow) => x.Net())
  {
    if ps != [] {
      SumNetIsSum(rows, ps[1..]);
      assert CoveredRows.RowsAt(rows, ps)[1..] == CoveredRows.RowsAt(rows, ps[1..]);
    }
  }

  // ----- A result covers whole settlements, so reordering cannot change its evidence

  predicate Settles(sids: seq<int>, row: ReconRow) {
    row.settlementId.Some? && row.settlementId.value in sids
  }

  /** A result's rows are exactly the rows of its settlements. */
  lemma CoversWholeSettlements(rows: seq<ReconRow>, idx: Index, r: Result, p: nat)
    requires ValidIndex(rows, idx) && WellMade(idx, r) && p < |rows|
    ensures Settles(r.sids, rows[p]) <==> p in r.positions
  {
    hide ValidIndex;
    CoveredMember(rows, idx, r.sids, p);
    if Settles(r.sids, rows[p]) {
      assert BelongsTo(rows, p, rows[p].settlementId.value);
    }
  }

  /** A result's row ids resolve, in any reordering of the report, to the very rows it covers. */
  lemma ResultRowsSurvive(rows: seq<ReconRow>, idx: Index, r: Result, rows': seq<ReconRow>, d: CoveredRows.Digest,
                          byId: map<CoveredRows.CanonicalId, ReconRow>)
    requires ValidIndex(rows, idx) && WellMade(idx, r) && NoRepeats(r.sids) && CoveredRows.CollisionFree(d)
    requires CoveredRows.Reorders(rows, rows', d, byId)
    ensures CoveredRows.InReport(rows, r.positions)
    ensures var found := CoveredRows.ResolvedBy(CoveredRows.CoverRows(rows, d, r.positions), byId);
            found.Resolved? && multiset(found.rows) == multiset(CoveredRows.RowsAt(rows, r.positions))
  {
    hide ValidIndex, CoveredRows.IsIndex, CoveredRows.ResolvedBy, NetSum, SumNet, CoveredPositions, NoRepeats,
         CoveredRows.CollisionFree, CoveredRows.Reorders, CoveredRows.RowsAt;
    RowsOnceExactlyWhenSettlementsOnce(rows, idx, r.sids);
    forall p | 0 <= p < |rows|
      ensures Settles(r.sids, rows[p]) <==> p in r.positions
    {
      CoversWholeSettlements(rows, idx, r, p);
    }
    CoveredRows.WholeGroupSurvives(rows, rows', d, r.positions, byId, (row: ReconRow) => Settles(r.sids, row));
  }

  /** So a credit is diagnosed alike from its result's rows and from what their ids resolve to in
      another copy of the report, capture evidence included. */
  lemma ResultCauseSurvives(rows: seq<ReconRow>, idx: Index, r: Result, rows': seq<ReconRow>, d: CoveredRows.Digest,
                            byId: map<CoveredRows.CanonicalId, ReconRow>, c: Investigate.Cause, x: Investigate.Case)
    requires ValidIndex(rows, idx) && WellMade(idx, r) && NoRepeats(r.sids) && CoveredRows.CollisionFree(d)
    requires CoveredRows.Reorders(rows, rows', d, byId) && CoveredRows.InReport(rows, r.positions)
    requires x.rows == CoveredRows.RowsAt(rows, r.positions) && x.report == rows
    ensures var found := CoveredRows.ResolvedBy(CoveredRows.CoverRows(rows, d, r.positions), byId);
            && found.Resolved?
            && var y := x.(rows := found.rows, report := rows');
               && Investigate.Delta(c, x).Some? == Investigate.Delta(c, y).Some?
               && (c != Investigate.RefundLag ==> Investigate.Delta(c, x) == Investigate.Delta(c, y))
  {
    hide ValidIndex, CoveredRows.IsIndex, CoveredRows.ResolvedBy, WellMade, NoRepeats,
         CoveredRows.CollisionFree, CoveredRows.RowsAt, Investigate.Delta, CoveredRows.CoverRows;
    ResultRowsSurvive(rows, idx, r, rows', d, byId);
    var found := CoveredRows.ResolvedBy(CoveredRows.CoverRows(rows, d, r.positions), byId);
    Investigate.CauseSurvivesReordering(c, x, x.(rows := found.rows, report := rows'));
  }

  // ----- From the reconciliation to the journal

  /** What the journal is given of a result. */
  function RecordOf(rows: seq<ReconRow>, d: CoveredRows.Digest, r: Result): Journal.Reconciled
    requires CoveredRows.InReport(rows, r.positions)
  {
    Journal.Reconciled(r.key, r.coveredNet, r.amount, CoveredRows.CoverRows(rows, d, r.positions))
  }

  ghost predicate AllWellMade(rows: seq<ReconRow>, idx: Index, results: seq<Result>) {
    ValidIndex(rows, idx) && forall r :: r in results ==> WellMade(idx, r)
  }

  lemma WellMadeInReport(rows: seq<ReconRow>, idx: Index, r: Result)
    requires ValidIndex(rows, idx) && WellMade(idx, r)
    ensures CoveredRows.InReport(rows, r.positions) && r.positions != []
  {
    hide ValidIndex, PositionsAt, NetSum, SumNet;
    CoveredInReport(rows, idx, r.sids);
    assert r.sids[0] in r.sids;
    PositionsAtFacts(rows, idx, r.sids[0]);
  }

  function RecordsOf(rows: seq<ReconRow>, d: CoveredRows.Digest, results: seq<Result>): (recs: seq<Journal.Reconciled>)
    requires forall r :: r in results ==> CoveredRows.InReport(rows, r.positions)
    ensures |recs| == |results| && forall i :: 0 <= i < |results| ==> recs[i] == RecordOf(rows, d, results[i])
  {
    seq(|results|, i requires 0 <= i < |results| => RecordOf(rows, d, results[i]))
  }

  lemma {:induction false} CreditsOfRecords(rows: seq<ReconRow>, d: CoveredRows.Digest, results: seq<Result>)
    requires forall r :: r in results ==> CoveredRows.InReport(rows, r.positions)
    ensures SumBy(RecordsOf(rows, d, results), (c: Journal.Reconciled) => c.creditAmount)
              == SumBy(results, (r: Result) => r.amount)
  {
    if results != [] {
      var n := |results| - 1;
      CreditsOfRecords(rows, d, results[..n]);
      assert RecordsOf(rows, d, results)[..n] == RecordsOf(rows, d, results[..n]);
    }
  }

  lemma RecordResolvesExactlyWhen(rows: seq<ReconRow>, idx: Index, r: Result, rows': seq<ReconRow>,
                                  d: CoveredRows.Digest,
                                  byId: map<CoveredRows.CanonicalId, ReconRow>)
    requires ValidIndex(rows, idx) && WellMade(idx, r) && CoveredRows.CollisionFree(d)
    requires CoveredRows.InReport(rows, r.positions)
    requires CoveredRows.Reorders(rows, rows', d, byId)
    ensures JournalBook.Strict(RecordOf(rows, d, r))
    ensures CoveredRows.ResolvedBy(RecordOf(rows, d, r).covered, byId).Resolved? <==> NoRepeats(r.sids)
  {
    hide ValidIndex, WellMade, CoveredRows.IsIndex, CoveredRows.ResolvedBy, CoveredRows.CollisionFree, NoRepeats;
    WellMadeInReport(rows, idx, r);
    ResultResolvesExactlyWhen(rows, idx, r, rows', d, byId);
  }

  /** From the report to the books: over the results of a run, and any reordering of the report, the
      journal is built if and only if no result names a settlement twice; then its bank debits are the
      credits reconciled and its input GST is the fee-GST total. */
  lemma JournalIsBuiltExactlyWhen(rows: seq<ReconRow>, idx: Index, results: seq<Result>, rows': seq<ReconRow>,
                                  d: CoveredRows.Digest,
                                  byId: map<CoveredRows.CanonicalId, ReconRow>, intraState: bool)
    requires AllWellMade(rows, idx, results) && CoveredRows.CollisionFree(d)
    requires CoveredRows.Reorders(rows, rows', d, byId)
    ensures forall r :: r in results ==> CoveredRows.InReport(rows, r.positions)
    ensures var recs := RecordsOf(rows, d, results);
            var out := JournalBook.Entries(Sort(recs, JournalBook.ByKey), rows', byId, intraState);
            && (out.Done? <==> NeverRepeats(results))
            && (out.Done? ==>
                  && SumBy(out.value, (e: JournalBook.Entry) => Journal.Movement(e.postings, Journal.Bank))
                     == SumBy(results, (r: Result) => r.amount)
                  && JournalBook.FeeGstTotal(recs, rows', byId)
                     == JournalBook.Done(SumBy(out.value, (e: JournalBook.Entry) => Journal.GstMovement(e.postings))))
  {
    hide ValidIndex, WellMade, CoveredRows.IsIndex, CoveredRows.ResolvedBy, CoveredRows.CollisionFree,
         CoveredRows.Reorders, NoRepeats,
         CoveredRows.InReport, RecordOf, JournalBook.Strict, SumBy, JournalBook.Entries, JournalBook.FeeGstTotal, Sort,
         Journal.Movement, Journal.GstMovement, Journal.Balanced;
    forall r | r in results
      ensures CoveredRows.InReport(rows, r.positions)
    {
      WellMadeInReport(rows, idx, r);
    }
    var recs := RecordsOf(rows, d, results);
    forall i | 0 <= i < |results|
      ensures JournalBook.Strict(recs[i])
      ensures CoveredRows.ResolvedBy(recs[i].covered, byId).Resolved? <==> NoRepeats(results[i].sids)
    {
      assert results[i] in results;
      RecordResolvesExactlyWhen(rows, idx, results[i], rows', d, byId);
    }
    JournalBook.JournalAgreesWithFeeGst(recs, rows', byId, intraState);
    CreditsOfRecords(rows, d, results);
    ResolveTogether(recs, results, byId);
  }

  lemma ResolveTogether(recs: seq<Journal.Reconciled>, results: seq<Result>,
                        byId: map<CoveredRows.CanonicalId, ReconRow>)
    requires |recs| == |results|
    requires forall i :: 0 <= i < |results| ==>
               (CoveredRows.ResolvedBy(recs[i].covered, byId).Resolved? <==> NoRepeats(results[i].sids))
    ensures (forall c :: c in recs ==> CoveredRows.ResolvedBy(c.covered, byId).Resolved?) <==> NeverRepeats(results)
  {
    hide CoveredRows.ResolvedBy, NoRepeats;
    if forall c :: c in recs ==> CoveredRows.ResolvedBy(c.covered, byId).Resolved? {
      forall r | r in results
        ensures NoRepeats(r.sids)
      {
        var i :| 0 <= i < |results| && results[i] == r;
        assert recs[i] in recs;
      }
    }
    if NeverRepeats(results) {
      forall c | c in recs
        ensures CoveredRows.ResolvedBy(c.covered, byId).Resolved?
      {
        var i :| 0 <= i < |recs| && recs[i] == c;
        assert results[i] in results;
      }
    }
  }
}
