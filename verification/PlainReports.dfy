/** Reports with one payment row per settlement, all settled on one day. */
module PlainReports {
  import opened Options
  import opened SettlementGroups
  import CoveredRows

  function PaymentRow(sid: int, net: int): ReconRow {
    CoveredRows.ReconRow("payment", "pay", net, 0, 0, 0, net, Some(sid), None, Some(0), None, false, None, None, None,
                         None, None, None, None)
  }

  function PlainRows(ids: seq<int>, nets: seq<int>): (rows: seq<ReconRow>)
    requires |ids| == |nets|
    ensures |rows| == |ids| && forall i :: 0 <= i < |ids| ==> rows[i] == PaymentRow(ids[i], nets[i])
  {
    seq(|ids|, i requires 0 <= i < |ids| => PaymentRow(ids[i], nets[i]))
  }

  /** One row per settlement: the settlements in row order. */
  lemma {:induction false} SidsOfRows(rows: seq<ReconRow>, ids: seq<int>)
    requires |rows| == |ids| && NoRepeats(ids) && forall i :: 0 <= i < |rows| ==> rows[i].settlementId == Some(ids[i])
    ensures SidsOf(rows) == ids
  {
    if rows != [] {
      var n := |rows| - 1;
      SidsOfRows(rows[..n], ids[..n]);
      assert ids == ids[..n] + [ids[n]];
    }
  }

  lemma OneRowNet(rows: seq<ReconRow>, i: nat, s: int)
    requires i < |rows| && rows[i].settlementId == Some(s)
    requires forall j :: 0 <= j < |rows| && rows[j].settlementId == Some(s) ==> j == i
    ensures NetOf(rows, s) == rows[i].Net()
  {
    var ps := PositionsOf(rows, s);
    FirstBelowSecond(ps);
    assert i in ps;
    assert ps == [i];
    assert SumNet(rows, [i]) == rows[i].Net() + SumNet(rows, []);
  }

  lemma FirstBelowSecond(ps: seq<nat>)
    requires forall q, r :: 0 <= q < r < |ps| ==> ps[q] < ps[r]
    ensures |ps| > 1 ==> ps[0] < ps[1]
  {
  }

  lemma {:induction false} OneDate(rows: seq<ReconRow>, s: int)
    requires (exists r :: r in rows && r.settlementId == Some(s)) && forall r :: r in rows ==> r.settledAt == Some(0)
    ensures DateOf(rows, s) == Some(0)
  {
    var n := |rows| - 1;
    assert rows == rows[..n] + [rows[n]] && rows[n] in rows;
    if rows[n].settlementId != Some(s) {
      OneDate(rows[..n], s);
    }
  }

  /** The index of such a report: its settlements in order, each with its own net and date. */
  lemma PlainIndex(ids: seq<int>, nets: seq<int>, idx: Index)
    requires |ids| == |nets| && NoRepeats(ids) && ValidIndex(PlainRows(ids, nets), idx)
    ensures idx.sids == ids
    ensures forall i :: 0 <= i < |ids| ==> ids[i] in idx.net && idx.net[ids[i]] == nets[i]
    ensures forall i :: 0 <= i < |ids| ==> ids[i] in idx.date && idx.date[ids[i]] == 0
  {
    hide SidsOf, DateOf, NetOf, SidOfUtr, WithNet, PositionsOf;
    var rows := PlainRows(ids, nets);
    SidsOfRows(rows, ids);
    forall i | 0 <= i < |ids|
      ensures ids[i] in idx.net && idx.net[ids[i]] == nets[i]
      ensures ids[i] in idx.date && idx.date[ids[i]] == 0
    {
      assert rows[i] in rows && ids[i] in idx.sids;
      OneRowNet(rows, i, ids[i]);
      OneDate(rows, ids[i]);
      assert Find(idx.date, ids[i]) == DateOf(rows, ids[i]);
    }
  }
}
