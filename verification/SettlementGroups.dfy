/** The settlement-grouped view of the recon report. */
module SettlementGroups {
  import opened Options
  import opened Sequences
  import CoveredRows

  type ReconRow = CoveredRows.ReconRow

  const SECONDS_PER_DAY := 86400

  /** The settlement-grouped view of the report. Rows are named by their position. */
  datatype Index = Index(
    sids: seq<int>, rowsBySid: map<int, seq<nat>>, net: map<int, int>, utr: map<string, int>, date: map<int, int>,
    byNet: map<int, seq<int>>)

  function SumNet(rows: seq<ReconRow>, ps: seq<nat>): int
    requires forall q :: 0 <= q < |ps| ==> ps[q] < |rows|
  {
    if ps == [] then 0 else rows[ps[0]].Net() + SumNet(rows, ps[1..])
  }

  /** Positions of the settlement's rows, in report order. */
  function PositionsOf(rows: seq<ReconRow>, sid: int): (ps: seq<nat>)
    ensures forall q :: 0 <= q < |ps| ==> ps[q] < |rows| && rows[ps[q]].settlementId == Some(sid)
    ensures forall q, r :: 0 <= q < r < |ps| ==> ps[q] < ps[r]
    ensures forall i :: 0 <= i < |rows| && rows[i].settlementId == Some(sid) ==> i in ps
  {
    if rows == [] then []
    else
      var n := |rows| - 1;
      var before := PositionsOf(rows[..n], sid);
      if rows[n].settlementId == Some(sid) then before + [n] else before
  }

  /** The settlements of the report, in the order of their first rows. */
  function SidsOf(rows: seq<ReconRow>): seq<int> {
    if rows == [] then []
    else
      var before, s := SidsOf(rows[..|rows| - 1]), rows[|rows| - 1].settlementId;
      if s.Some? && s.value !in before then before + [s.value] else before
  }

  /** The settlement's date: that of its last dated row. */
  function DateOf(rows: seq<ReconRow>, sid: int): Option<int> {
    if rows == [] then None
    else
      var r := rows[|rows| - 1];
      if r.settlementId == Some(sid) && r.settledAt.Some? then Some(r.settledAt.value / SECONDS_PER_DAY)
      else DateOf(rows[..|rows| - 1], sid)
  }

  /** The settlement a reference points at: the first one that carries it. */
  function SidOfUtr(rows: seq<ReconRow>, u: string): Option<int> {
    if rows == [] then None
    else
      var before, r := SidOfUtr(rows[..|rows| - 1], u), rows[|rows| - 1];
      if before.Some? then before
      else if r.settlementUtr == Some(u) then r.settlementId
      else None
  }

  predicate NoRepeats(sids: seq<int>) {
    forall i, j :: 0 <= i < j < |sids| ==> sids[i] != sids[j]
  }

  function NetOf(rows: seq<ReconRow>, sid: int): int {
    SumNet(rows, PositionsOf(rows, sid))
  }

  function ByNet(idx: Index, n: int): seq<int> {
    if n in idx.byNet then idx.byNet[n] else []
  }

  function WithNet(sids: seq<int>, net: map<int, int>, n: int): seq<int> {
    Filter(sids, (s: int) => s in net && net[s] == n)
  }

  function Find<K, V>(m: map<K, V>, k: K): Option<V> {
    if k in m then Some(m[k]) else None
  }

  /** The grouped part of the index covers exactly the rows of the report. */
  ghost predicate Groups(rows: seq<ReconRow>, sids: seq<int>, rowsBySid: map<int, seq<nat>>, net: map<int, int>) {
    && NoRepeats(sids)
    && (forall s :: s in sids <==> s in rowsBySid)
    && (forall s :: s in sids <==> s in net)
    && (forall s :: s in rowsBySid ==> rowsBySid[s] == PositionsOf(rows, s) && rowsBySid[s] != [])
    && (forall s :: s in net ==> net[s] == NetOf(rows, s))
    && (forall s :: s !in rowsBySid ==> PositionsOf(rows, s) == [])
  }

  ghost predicate ValidIndex(rows: seq<ReconRow>, idx: Index) {
    && idx.sids == SidsOf(rows) && Groups(rows, idx.sids, idx.rowsBySid, idx.net)
    && (forall u :: Find(idx.utr, u) == SidOfUtr(rows, u))
    && (forall s :: Find(idx.date, s) == DateOf(rows, s))
    && (forall n :: ByNet(idx, n) == WithNet(idx.sids, idx.net, n))
  }

  lemma {:induction false} SumNetFrame(rows: seq<ReconRow>, n: nat, ps: seq<nat>)
    requires n <= |rows| && forall q :: 0 <= q < |ps| ==> ps[q] < n
    ensures SumNet(rows, ps) == SumNet(rows[..n], ps)
  {
    if ps != [] {
      SumNetFrame(rows, n, ps[1..]);
    }
  }

  lemma {:induction false} SumNetConcat(rows: seq<ReconRow>, a: seq<nat>, b: seq<nat>)
    requires (forall q :: 0 <= q < |a| ==> a[q] < |rows|) && (forall q :: 0 <= q < |b| ==> b[q] < |rows|)
    ensures SumNet(rows, a + b) == SumNet(rows, a) + SumNet(rows, b)
  {
    if a == [] {
      assert a + b == b;
    } else {
      SumNetConcat(rows, a[1..], b);
      assert (a + b)[1..] == a[1..] + b;
    }
  }

  /** One more row extends its own settlement and no other. */
  lemma GroupStep(rows: seq<ReconRow>, i: nat, sid: int)
    requires i < |rows|
    ensures rows[i].settlementId == Some(sid) ==>
              PositionsOf(rows[..i + 1], sid) == PositionsOf(rows[..i], sid) + [i]
              && NetOf(rows[..i + 1], sid) == NetOf(rows[..i], sid) + rows[i].Net()
    ensures rows[i].settlementId != Some(sid) ==>
              PositionsOf(rows[..i + 1], sid) == PositionsOf(rows[..i], sid)
              && NetOf(rows[..i + 1], sid) == NetOf(rows[..i], sid)
  {
    var now, before := rows[..i + 1], rows[..i];
    assert now[..i] == before;
    var ps := PositionsOf(before, sid);
    SumNetFrame(now, i, ps);
    if rows[i].settlementId == Some(sid) {
      SumNetConcat(now, ps, [i]);
      assert SumNet(now, [i]) == rows[i].Net();
    }
  }

  lemma GroupsGrow(rows: seq<ReconRow>, i: nat, sids: seq<int>, rowsBySid: map<int, seq<nat>>, net: map<int, int>)
    requires i < |rows| && rows[i].settlementId.Some? && Groups(rows[..i], sids, rowsBySid, net)
    ensures var s := rows[i].settlementId.value;
            Groups(rows[..i + 1], if s in rowsBySid then sids else sids + [s],
                   rowsBySid[s := (if s in rowsBySid then rowsBySid[s] else []) + [i]],
                   net[s := (if s in net then net[s] else 0) + rows[i].Net()])
  {
    hide PositionsOf, NetOf;
    var s := rows[i].settlementId.value;
    GroupOfRow(rows, i, sids, rowsBySid, net, s);
    forall t | t != s
      ensures PositionsOf(rows[..i + 1], t) == PositionsOf(rows[..i], t)
      ensures NetOf(rows[..i + 1], t) == NetOf(rows[..i], t)
    {
      GroupStep(rows, i, t);
    }
    assert forall t :: t in (if s in rowsBySid then sids else sids + [s]) <==> t in sids || t == s;
  }

  lemma GroupOfRow(rows: seq<ReconRow>, i: nat, sids: seq<int>, rowsBySid: map<int, seq<nat>>, net: map<int, int>,
                   s: int)
    requires i < |rows| && rows[i].settlementId == Some(s) && Groups(rows[..i], sids, rowsBySid, net)
    ensures PositionsOf(rows[..i + 1], s) == (if s in rowsBySid then rowsBySid[s] else []) + [i]
    ensures NetOf(rows[..i + 1], s) == (if s in net then net[s] else 0) + rows[i].Net()
    ensures s in net <==> s in rowsBySid
  {
    hide PositionsOf, NetOf, NoRepeats;
    assert (s in sids <==> s in net) && (s in sids <==> s in rowsBySid);
    if s !in net {
      EmptyNet(rows[..i], s);
    }
    GroupStep(rows, i, s);
  }

  lemma EmptyNet(rows: seq<ReconRow>, s: int)
    requires PositionsOf(rows, s) == []
    ensures NetOf(rows, s) == 0
  {
  }

  lemma GroupsStay(rows: seq<ReconRow>, i: nat, sids: seq<int>, rowsBySid: map<int, seq<nat>>, net: map<int, int>)
    requires i < |rows| && rows[i].settlementId.None? && Groups(rows[..i], sids, rowsBySid, net)
    ensures Groups(rows[..i + 1], sids, rowsBySid, net)
  {
    hide PositionsOf, NetOf;
    forall t
      ensures PositionsOf(rows[..i + 1], t) == PositionsOf(rows[..i], t)
      ensures NetOf(rows[..i + 1], t) == NetOf(rows[..i], t)
    {
      GroupStep(rows, i, t);
    }
  }

  lemma SidsStep(rows: seq<ReconRow>, i: nat, sids: seq<int>, rowsBySid: map<int, seq<nat>>, net: map<int, int>)
    requires i < |rows| && sids == SidsOf(rows[..i]) && Groups(rows[..i], sids, rowsBySid, net)
    ensures var s := rows[i].settlementId;
            SidsOf(rows[..i + 1]) == if s.None? || s.value in rowsBySid then sids else sids + [s.value]
  {
    hide PositionsOf, NetOf;
    assert rows[..i + 1][..i] == rows[..i] && rows[..i + 1] != [];
    if rows[i].settlementId.Some? {
      var s := rows[i].settlementId.value;
      assert s in sids <==> s in rowsBySid;
    }
  }

  ghost predicate References(rows: seq<ReconRow>, utr: map<string, int>, date: map<int, int>) {
    && (forall u :: Find(utr, u) == SidOfUtr(rows, u))
    && (forall s :: Find(date, s) == DateOf(rows, s))
  }

  /** One row's references and date. */
  lemma ReferencesStep(rows: seq<ReconRow>, i: nat, utr: map<string, int>, date: map<int, int>, utr': map<string, int>,
                       date': map<int, int>)
    requires i < |rows| && References(rows[..i], utr, date)
    requires var r := rows[i];
             && utr' == (if r.settlementId.Some? && r.settlementUtr.Some? && r.settlementUtr.value !in utr
                         then utr[r.settlementUtr.value := r.settlementId.value] else utr)
             && date' == (if r.settlementId.Some? && r.settledAt.Some?
                          then date[r.settlementId.value := r.settledAt.value / SECONDS_PER_DAY] else date)
    ensures References(rows[..i + 1], utr', date')
  {
    var r := rows[i];
    forall u
      ensures Find(utr', u) == SidOfUtr(rows[..i + 1], u)
    {
      assert rows[..i + 1][..i] == rows[..i];
      assert Find(utr, u) == SidOfUtr(rows[..i], u);
    }
    forall s
      ensures Find(date', s) == DateOf(rows[..i + 1], s)
    {
      assert rows[..i + 1][..i] == rows[..i];
      assert Find(date, s) == DateOf(rows[..i], s);
    }
  }

  /** `SettlementIndex.__init__`: groups the report in one pass. */
  method BuildIndex(rows: seq<ReconRow>) returns (idx: Index)
    ensures ValidIndex(rows, idx)
  {
    hide Groups, References, SidsOf;
    var sids: seq<int>, rowsBySid: map<int, seq<nat>>, net: map<int, int> := [], map[], map[];
    var utr: map<string, int>, date: map<int, int> := map[], map[];
    NothingGrouped();
    assert rows[..0] == [];
    for i := 0 to |rows|
      invariant Groups(rows[..i], sids, rowsBySid, net) && References(rows[..i], utr, date) && sids == SidsOf(rows[..i])
    {
      var r := rows[i];
      SidsStep(rows, i, sids, rowsBySid, net);
      ghost var utr0, date0 := utr, date;
      if r.settlementId.None? {
        GroupsStay(rows, i, sids, rowsBySid, net);
      } else {
        var s := r.settlementId.value;
        GroupsGrow(rows, i, sids, rowsBySid, net);
        sids := if s in rowsBySid then sids else sids + [s];
        rowsBySid := rowsBySid[s := (if s in rowsBySid then rowsBySid[s] else []) + [i]];
        net := net[s := (if s in net then net[s] else 0) + r.Net()];
        if r.settlementUtr.Some? && r.settlementUtr.value !in utr {
          utr := utr[r.settlementUtr.value := s];
        }
        if r.settledAt.Some? {
          date := date[s := r.settledAt.value / SECONDS_PER_DAY];
        }
      }
      ReferencesStep(rows, i, utr0, date0, utr, date);
    }
    assert rows[..|rows|] == rows;
    var byNet := GroupByNet(sids, net);
    idx := Index(sids, rowsBySid, net, utr, date, byNet);
    ValidFromParts(rows, idx);
  }

  lemma NothingGrouped()
    ensures Groups([], [], map[], map[]) && References([], map[], map[]) && SidsOf([]) == []
  {
  }

  lemma ValidFromParts(rows: seq<ReconRow>, idx: Index)
    requires Groups(rows, idx.sids, idx.rowsBySid, idx.net) && References(rows, idx.utr, idx.date)
    requires idx.sids == SidsOf(rows) && forall n :: ByNet(idx, n) == WithNet(idx.sids, idx.net, n)
    ensures ValidIndex(rows, idx)
  {
  }

  method GroupByNet(sids: seq<int>, net: map<int, int>) returns (byNet: map<int, seq<int>>)
    ensures forall n :: (if n in byNet then byNet[n] else []) == WithNet(sids, net, n)
  {
    hide WithNet;
    byNet := map[];
    WithNetNone(net);
    for i := 0 to |sids|
      invariant forall n :: (if n in byNet then byNet[n] else []) == WithNet(sids[..i], net, n)
    {
      ghost var before := byNet;
      var s := sids[i];
      if s in net {
        byNet := byNet[net[s] := (if net[s] in byNet then byNet[net[s]] else []) + [s]];
      }
      forall n
        ensures (if n in byNet then byNet[n] else []) == WithNet(sids[..i + 1], net, n)
      {
        WithNetStep(sids, net, i, n);
        assert (if n in before then before[n] else []) == WithNet(sids[..i], net, n);
      }
    }
    assert sids[..|sids|] == sids;
  }

  lemma WithNetNone(net: map<int, int>)
    ensures forall n :: WithNet([], net, n) == []
  {
  }

  lemma WithNetStep(sids: seq<int>, net: map<int, int>, i: nat, n: int)
    requires i < |sids|
    ensures WithNet(sids[..i + 1], net, n) == WithNet(sids[..i], net, n)
              + (if sids[i] in net && net[sids[i]] == n then [sids[i]] else [])
  {
    FilterStep(sids, i, (s: int) => s in net && net[s] == n);
  }

  // ----- What the index says of the report

  /** The row ties the reference to a settlement. */
  predicate Ties(r: ReconRow, u: string) {
    r.settlementUtr == Some(u) && r.settlementId.Some?
  }

  /** A reference points at the settlement of the first row that ties it to one. */
  lemma {:induction false} FirstReferenceWins(rows: seq<ReconRow>, u: string, s: int)
    ensures SidOfUtr(rows, u) == Some(s)
            <==> exists i :: 0 <= i < |rows| && Ties(rows[i], u) && rows[i].settlementId == Some(s)
                             && forall j :: 0 <= j < i ==> !Ties(rows[j], u)
    ensures SidOfUtr(rows, u) == None <==> forall i :: 0 <= i < |rows| ==> !Ties(rows[i], u)
  {
    if rows != [] {
      var n := |rows| - 1;
      var front := rows[..n];
      FirstReferenceWins(front, u, s);
      assert forall i :: 0 <= i < n ==> front[i] == rows[i];
      if SidOfUtr(front, u).Some? {
        FirstReferenceWins(front, u, SidOfUtr(front, u).value);
      }
    }
  }

  predicate Dates(r: ReconRow, s: int) {
    r.settlementId == Some(s) && r.settledAt.Some?
  }

  /** A settlement's date is the day of its last dated row. */
  lemma {:induction false} LastDateWins(rows: seq<ReconRow>, s: int, d: int)
    ensures DateOf(rows, s) == Some(d)
            <==> exists i :: 0 <= i < |rows| && Dates(rows[i], s) && rows[i].settledAt.value / SECONDS_PER_DAY == d
                             && forall j :: i < j < |rows| ==> !Dates(rows[j], s)
    ensures DateOf(rows, s) == None <==> forall i :: 0 <= i < |rows| ==> !Dates(rows[i], s)
  {
    if rows != [] {
      var n := |rows| - 1;
      var front := rows[..n];
      LastDateWins(front, s, d);
      assert forall i :: 0 <= i < n ==> front[i] == rows[i];
    }
  }

  /** A settlement's net is the credits less the debits of its rows. */
  lemma {:induction false} NetIsCreditsLessDebits(rows: seq<ReconRow>, s: int)
    ensures NetOf(rows, s) == SumBy(rows, (r: ReconRow) => if r.settlementId == Some(s) then r.credit - r.debit else 0)
  {
    hide NetOf;
    if rows == [] {
      EmptyNet(rows, s);
    } else {
      var n := |rows| - 1;
      NetIsCreditsLessDebits(rows[..n], s);
      GroupStep(rows, n, s);
      assert rows[..n + 1] == rows;
    }
  }
}
