/** Content-derived identity of settlement rows and its fail-closed resolution. */
module CoveredRows {
  import opened Options
  import opened Sequences

  /** One settled transaction of the recon report. Times are integers (seconds since an epoch). */
  datatype ReconRow = ReconRow(
    kind: string, entityId: string, amount: int, fee: int, tax: int, debit: int, credit: int,
    settlementId: Option<int>, settlementUtr: Option<string>, settledAt: Option<int>, createdAt: Option<int>,
    onHold: bool, disputeId: Option<string>, orderId: Option<string>, payMethod: Option<string>,
    description: Option<string>,
    rowId: Option<string>, authorized: Option<int>, captured: Option<int>)
  {
    function Net(): int {
      credit - debit
    }
  }

  /** The distinguishing fields. The untrusted row id and the optional capture evidence are not among them. */
  datatype Signature = Signature(
    kind: string, entityId: string, amount: int, fee: int, tax: int, debit: int, credit: int,
    settlementId: Option<int>, settlementUtr: Option<string>, settledAt: Option<int>, createdAt: Option<int>,
    onHold: bool, disputeId: Option<string>, orderId: Option<string>, payMethod: Option<string>,
    description: Option<string>)

  function SignatureOf(r: ReconRow): Signature {
    Signature(r.kind, r.entityId, r.amount, r.fee, r.tax, r.debit, r.credit, r.settlementId, r.settlementUtr,
              r.settledAt, r.createdAt, r.onHold, r.disputeId, r.orderId, r.payMethod, r.description)
  }

  /** `row_<digest>_<occurrence>`. */
  datatype CanonicalId = CanonicalId(digest: int, occurrence: nat)

  type Digest = Signature -> int

  ghost predicate CollisionFree(d: Digest) {
    forall a, b :: d(a) == d(b) ==> a == b
  }

  /** How many of the rows carry the signature. */
  function Count(rows: seq<ReconRow>, sig: Signature): nat {
    if rows == [] then 0
    else Count(rows[..|rows| - 1], sig) + if SignatureOf(rows[|rows| - 1]) == sig then 1 else 0
  }

  function IdAt(rows: seq<ReconRow>, d: Digest, i: nat): CanonicalId
    requires i < |rows|
  {
    CanonicalId(d(SignatureOf(rows[i])), Count(rows[..i], SignatureOf(rows[i])))
  }

  /** `canonical_row_ids`: the id of the row at each position. */
  method CanonicalRowIds(rows: seq<ReconRow>, d: Digest) returns (ids: seq<CanonicalId>)
    ensures |ids| == |rows| && forall i :: 0 <= i < |rows| ==> ids[i] == IdAt(rows, d, i)
  {
    var seen: map<Signature, nat> := map[];
    ids := [];
    for i := 0 to |rows|
      invariant |ids| == i && forall j :: 0 <= j < i ==> ids[j] == IdAt(rows, d, j)
      invariant forall sig :: (if sig in seen then seen[sig] else 0) == Count(rows[..i], sig)
    {
      var sig := SignatureOf(rows[i]);
      var occurrence := if sig in seen then seen[sig] else 0;
      assert rows[..i + 1][..i] == rows[..i];
      seen := seen[sig := occurrence + 1];
      ids := ids + [CanonicalId(d(sig), occurrence)];
    }
  }

  lemma {:induction false} CountMonotone(rows: seq<ReconRow>, i: nat, sig: Signature)
    requires i <= |rows|
    ensures Count(rows[..i], sig) <= Count(rows, sig)
  {
    if i < |rows| {
      var front := rows[..|rows| - 1];
      CountMonotone(front, i, sig);
      assert front[..i] == rows[..i];
    } else {
      assert rows[..i] == rows;
    }
  }

  lemma CountAt(rows: seq<ReconRow>, i: nat, sig: Signature)
    requires i < |rows|
    ensures Count(rows[..i + 1], sig) == Count(rows[..i], sig) + if SignatureOf(rows[i]) == sig then 1 else 0
  {
    assert rows[..i + 1][..i] == rows[..i];
  }

  lemma CountBefore(rows: seq<ReconRow>, i: nat, j: nat, sig: Signature)
    requires i < j <= |rows| && SignatureOf(rows[i]) == sig
    ensures Count(rows[..i], sig) < Count(rows[..j], sig)
  {
    hide Count;
    CountAt(rows, i, sig);
    CountMonotone(rows[..j], i + 1, sig);
    assert rows[..j][..i + 1] == rows[..i + 1];
  }

  /** Canonical ids are distinct, even for rows that agree on every field. */
  lemma CanonicalIdsAreDistinct(rows: seq<ReconRow>, d: Digest, i: nat, j: nat)
    requires CollisionFree(d) && i < j < |rows|
    ensures IdAt(rows, d, i) != IdAt(rows, d, j)
  {
    hide Count;
    if SignatureOf(rows[i]) == SignatureOf(rows[j]) {
      CountBefore(rows, i, j, SignatureOf(rows[i]));
    }
  }

  /** Each occurrence below the count has a position. */
  lemma {:induction false} OccurrenceHasPosition(rows: seq<ReconRow>, sig: Signature, occ: nat) returns (i: nat)
    requires occ < Count(rows, sig)
    ensures i < |rows| && SignatureOf(rows[i]) == sig && Count(rows[..i], sig) == occ
  {
    var front := rows[..|rows| - 1];
    if occ < Count(front, sig) {
      i := OccurrenceHasPosition(front, sig, occ);
      assert front[..i] == rows[..i];
    } else {
      i := |rows| - 1;
    }
  }

  // ----- Resolution

  datatype Error = CountMismatch | DuplicateRowId | MissingRow | EntityMismatch

  datatype Resolution = Resolved(rows: seq<ReconRow>) | Refused(why: Error)

  /** What a reconciliation result records of the rows it covers. */
  datatype Covered = Covered(entities: seq<(string, string)>, rowIds: seq<CanonicalId>)

  function Entity(r: ReconRow): (string, string) {
    (r.kind, r.entityId)
  }

  /** `rows_by_canonical_id`. */
  method RowsById(rows: seq<ReconRow>, d: Digest) returns (byId: map<CanonicalId, ReconRow>)
    requires CollisionFree(d)
    ensures forall id :: id in byId <==> exists i :: 0 <= i < |rows| && IdAt(rows, d, i) == id
    ensures forall i :: 0 <= i < |rows| ==> byId[IdAt(rows, d, i)] == rows[i]
  {
    hide IdAt;
    var ids := CanonicalRowIds(rows, d);
    byId := map[];
    for i := 0 to |rows|
      invariant forall id :: id in byId <==> exists j :: 0 <= j < i && IdAt(rows, d, j) == id
      invariant forall j :: 0 <= j < i ==> byId[IdAt(rows, d, j)] == rows[j]
    {
      forall j | 0 <= j < i
        ensures IdAt(rows, d, j) != IdAt(rows, d, i)
      {
        CanonicalIdsAreDistinct(rows, d, j, i);
      }
      byId := byId[ids[i] := rows[i]];
    }
  }

  predicate DistinctIds(ids: seq<CanonicalId>) {
    forall i, j :: 0 <= i < j < |ids| ==> ids[i] != ids[j]
  }

  /** `resolve_covered_rows_by_id`: count parity, uniqueness, existence and identity, in that order. */
  method ResolveCovered(rec: Covered, byId: map<CanonicalId, ReconRow>) returns (r: Resolution)
    ensures r == ResolvedBy(rec, byId)
  {
    if |rec.rowIds| != |rec.entities| {
      return Refused(CountMismatch);
    }
    if !DistinctIds(rec.rowIds) {
      return Refused(DuplicateRowId);
    }
    var rows: seq<ReconRow> := [];
    for pos := 0 to |rec.rowIds|
      invariant |rows| == pos
      invariant forall q :: 0 <= q < pos ==>
                  rec.rowIds[q] in byId && rows[q] == byId[rec.rowIds[q]] && Entity(rows[q]) == rec.entities[q]
      invariant LookUp(rec.rowIds, rec.entities, byId, 0) == AndThen(rows, LookUp(rec.rowIds, rec.entities, byId, pos))
    {
      var id := rec.rowIds[pos];
      if id !in byId {
        return Refused(MissingRow);
      }
      var row := byId[id];
      if Entity(row) != rec.entities[pos] {
        return Refused(EntityMismatch);
      }
      AndThenStep(rows, row, LookUp(rec.rowIds, rec.entities, byId, pos + 1));
      rows := rows + [row];
    }
    assert rows + [] == rows;
    return Resolved(rows);
  }

  function AndThen(rows: seq<ReconRow>, r: Resolution): Resolution {
    if r.Resolved? then Resolved(rows + r.rows) else r
  }

  lemma AndThenStep(rows: seq<ReconRow>, row: ReconRow, r: Resolution)
    ensures AndThen(rows, AndThen([row], r)) == AndThen(rows + [row], r)
  {
    if r.Resolved? {
      assert rows + ([row] + r.rows) == rows + [row] + r.rows;
    }
  }

  /** The rows from position `pos` on, or the first refusal. */
  function LookUp(ids: seq<CanonicalId>, entities: seq<(string, string)>, byId: map<CanonicalId, ReconRow>,
                  pos: nat): Resolution
    requires pos <= |ids| == |entities|
    decreases |ids| - pos
  {
    if pos == |ids| then Resolved([])
    else if ids[pos] !in byId then Refused(MissingRow)
    else if Entity(byId[ids[pos]]) != entities[pos] then Refused(EntityMismatch)
    else AndThen([byId[ids[pos]]], LookUp(ids, entities, byId, pos + 1))
  }

  function ResolvedBy(rec: Covered, byId: map<CanonicalId, ReconRow>): Resolution {
    if |rec.rowIds| != |rec.entities| then Refused(CountMismatch)
    else if !DistinctIds(rec.rowIds) then Refused(DuplicateRowId)
    else LookUp(rec.rowIds, rec.entities, byId, 0)
  }

  // ----- Identity survives reordering

  function Matches(r: ReconRow, sig: Signature): nat {
    if SignatureOf(r) == sig then 1 else 0
  }

  lemma {:induction false} CountConcat(a: seq<ReconRow>, b: seq<ReconRow>, sig: Signature)
    ensures Count(a + b, sig) == Count(a, sig) + Count(b, sig)
  {
    if b == [] {
      assert a + b == a;
    } else {
      var n := |b| - 1;
      CountConcat(a, b[..n], sig);
      assert (a + b)[..|a + b| - 1] == a + b[..n];
    }
  }

  lemma CountDrop(rows: seq<ReconRow>, i: nat, sig: Signature)
    requires i < |rows|
    ensures Count(rows, sig) == Matches(rows[i], sig) + Count(Drop(rows, i), sig)
  {
    SplitAt(rows, i);
    CountConcat(rows[..i], [rows[i]] + rows[i + 1..], sig);
    CountConcat([rows[i]], rows[i + 1..], sig);
    CountConcat(rows[..i], rows[i + 1..], sig);
    assert [rows[i]][..0] == [] && Count([rows[i]], sig) == Matches(rows[i], sig);
  }

  /** Reordering a report keeps every count; adding rows only raises them. */
  lemma {:induction false} CountOfMembers(rows: seq<ReconRow>, rows': seq<ReconRow>, sig: Signature)
    requires multiset(rows) <= multiset(rows')
    ensures Count(rows, sig) <= Count(rows', sig)
    decreases |rows|
  {
    if rows != [] {
      hide Count, SignatureOf;
      assert rows[0] in multiset(rows');
      var i :| 0 <= i < |rows'| && rows'[i] == rows[0];
      CountDrop(rows, 0, sig);
      CountDrop(rows', i, sig);
      DropMembers(rows, 0);
      DropMembers(rows', i);
      CancelSubset(rows[0], multiset(Drop(rows, 0)), multiset(Drop(rows', i)));
      CountOfMembers(Drop(rows, 0), Drop(rows', i), sig);
    } else {
      NothingCounted(sig);
    }
  }

  lemma NothingCounted(sig: Signature)
    ensures Count([], sig) == 0
  {
  }

  predicate InReport(rows: seq<ReconRow>, ps: seq<nat>) {
    forall q :: 0 <= q < |ps| ==> ps[q] < |rows|
  }

  function RowsAt(rows: seq<ReconRow>, ps: seq<nat>): (r: seq<ReconRow>)
    requires InReport(rows, ps)
    ensures |r| == |ps| && forall q :: 0 <= q < |ps| ==> r[q] == rows[ps[q]]
  {
    seq(|ps|, q requires 0 <= q < |ps| => rows[ps[q]])
  }

  predicate DistinctPositions(positions: seq<nat>, n: nat) {
    && (forall q :: 0 <= q < |positions| ==> positions[q] < n)
    && forall q, r :: 0 <= q < r < |positions| ==> positions[q] != positions[r]
  }

  /** What reconciliation records for the rows at the given positions of its report. */
  function CoverRows(rows: seq<ReconRow>, d: Digest, positions: seq<nat>): Covered
    requires InReport(rows, positions)
  {
    Covered(seq(|positions|, q requires 0 <= q < |positions| => Entity(rows[positions[q]])),
            seq(|positions|, q requires 0 <= q < |positions| => IdAt(rows, d, positions[q])))
  }

  /** `byId` is `rows_by_canonical_id` of the report. */
  ghost predicate IsIndex(rows: seq<ReconRow>, d: Digest, byId: map<CanonicalId, ReconRow>) {
    && (forall id :: id in byId ==> exists i :: 0 <= i < |rows| && IdAt(rows, d, i) == id)
    && forall i :: 0 <= i < |rows| ==> IdAt(rows, d, i) in byId && byId[IdAt(rows, d, i)] == rows[i]
  }

  /** A row id of one report is, in a reordered or enlarged report, the id of a row with the same fields. */
  lemma IdFindsSameFields(rows: seq<ReconRow>, rows': seq<ReconRow>, d: Digest, i: nat) returns (j: nat)
    requires i < |rows| && multiset(rows) <= multiset(rows')
    ensures j < |rows'| && IdAt(rows', d, j) == IdAt(rows, d, i) && SignatureOf(rows'[j]) == SignatureOf(rows[i])
  {
    hide Count;
    var sig := SignatureOf(rows[i]);
    CountBefore(rows, i, |rows|, sig);
    assert rows[..|rows|] == rows;
    CountOfMembers(rows, rows', sig);
    j := OccurrenceHasPosition(rows', sig, Count(rows[..i], sig));
  }

  /** The positions of `rows'` that carry the ids of the given positions of `rows`. */
  ghost predicate Carries(rows: seq<ReconRow>, rows': seq<ReconRow>, d: Digest, ps: seq<nat>, js: seq<nat>) {
    && |js| == |ps| && InReport(rows, ps) && InReport(rows', js)
    && forall q :: 0 <= q < |ps| ==>
         IdAt(rows', d, js[q]) == IdAt(rows, d, ps[q]) && SignatureOf(rows'[js[q]]) == SignatureOf(rows[ps[q]])
  }

  lemma {:induction false} FindCarriers(rows: seq<ReconRow>, rows': seq<ReconRow>, d: Digest, ps: seq<nat>)
    returns (js: seq<nat>)
    requires InReport(rows, ps) && multiset(rows) <= multiset(rows')
    ensures Carries(rows, rows', d, ps, js)
  {
    hide IdAt, SignatureOf;
    js := [];
    if ps != [] {
      js := FindCarriers(rows, rows', d, ps[1..]);
      var j := IdFindsSameFields(rows, rows', d, ps[0]);
      js := [j] + js;
    }
  }

  lemma DistinctPositionsHaveDistinctIds(rows: seq<ReconRow>, d: Digest, ps: seq<nat>)
    requires CollisionFree(d) && DistinctPositions(ps, |rows|)
    ensures forall q, r :: 0 <= q < r < |ps| ==> IdAt(rows, d, ps[q]) != IdAt(rows, d, ps[r])
  {
    hide IdAt;
    forall q, r | 0 <= q < r < |ps|
      ensures IdAt(rows, d, ps[q]) != IdAt(rows, d, ps[r])
    {
      if ps[q] < ps[r] {
        CanonicalIdsAreDistinct(rows, d, ps[q], ps[r]);
      } else {
        CanonicalIdsAreDistinct(rows, d, ps[r], ps[q]);
      }
    }
  }

  lemma {:induction false} LookUpSucceeds(ids: seq<CanonicalId>, entities: seq<(string, string)>,
                                          byId: map<CanonicalId, ReconRow>, pos: nat)
    requires pos <= |ids| == |entities|
    requires forall q :: 0 <= q < |ids| ==> ids[q] in byId && Entity(byId[ids[q]]) == entities[q]
    ensures LookUp(ids, entities, byId, pos)
              == Resolved(seq(|ids| - pos, q requires 0 <= q < |ids| - pos => byId[ids[pos + q]]))
    decreases |ids| - pos
  {
    if pos < |ids| {
      LookUpSucceeds(ids, entities, byId, pos + 1);
    }
  }

  /** A covered-row list resolves in any reordering to the rows that carry its ids, each of them once. */
  lemma ResolvesToCarriers(rows: seq<ReconRow>, rows': seq<ReconRow>, d: Digest, ps: seq<nat>,
                           byId: map<CanonicalId, ReconRow>)
    returns (js: seq<nat>)
    requires CollisionFree(d) && DistinctPositions(ps, |rows|)
    requires multiset(rows) <= multiset(rows') && IsIndex(rows', d, byId)
    ensures Carries(rows, rows', d, ps, js) && DistinctPositions(js, |rows'|)
    ensures ResolvedBy(CoverRows(rows, d, ps), byId) == Resolved(RowsAt(rows', js))
  {
    hide IdAt, SignatureOf, CollisionFree;
    js := FindCarriers(rows, rows', d, ps);
    var rec := CoverRows(rows, d, ps);
    DistinctPositionsHaveDistinctIds(rows, d, ps);
    forall q, r | 0 <= q < r < |ps|
      ensures rec.rowIds[q] != rec.rowIds[r] && js[q] != js[r]
    {
      assert IdAt(rows, d, ps[q]) != IdAt(rows, d, ps[r]);
    }
    forall q | 0 <= q < |ps|
      ensures rec.rowIds[q] in byId && byId[rec.rowIds[q]] == rows'[js[q]] && Entity(rows'[js[q]]) == rec.entities[q]
    {
      SameFieldsSameEntity(rows'[js[q]], rows[ps[q]]);
    }
    LookUpSucceeds(rec.rowIds, rec.entities, byId, 0);
  }

  lemma SameFieldsSameEntity(a: ReconRow, b: ReconRow)
    requires SignatureOf(a) == SignatureOf(b)
    ensures Entity(a) == Entity(b) && a.settlementId == b.settlementId
  {
  }

  /** For any reordering of the report, a covered-row list still resolves, to rows with the same
      fields at the same places. */
  lemma IdentitySurvivesReordering(rows: seq<ReconRow>, rows': seq<ReconRow>, d: Digest, positions: seq<nat>,
                                   byId: map<CanonicalId, ReconRow>)
    requires CollisionFree(d) && DistinctPositions(positions, |rows|)
    requires multiset(rows) <= multiset(rows') && IsIndex(rows', d, byId)
    ensures var r := ResolvedBy(CoverRows(rows, d, positions), byId);
            && r.Resolved? && |r.rows| == |positions|
            && forall q :: 0 <= q < |positions| ==> SignatureOf(r.rows[q]) == SignatureOf(rows[positions[q]])
  {
    hide SignatureOf, ResolvedBy, CollisionFree, IsIndex;
    var js := ResolvesToCarriers(rows, rows', d, positions, byId);
  }

  function Sum(rows: seq<ReconRow>, field: ReconRow -> int): int {
    if rows == [] then 0 else field(rows[0]) + Sum(rows[1..], field)
  }

  /** Same fields, same money: any amount read off the signature sums to the same total. */
  lemma {:induction false} SameFieldsSameSum(a: seq<ReconRow>, b: seq<ReconRow>, field: ReconRow -> int)
    requires |a| == |b| && forall q :: 0 <= q < |a| ==> SignatureOf(a[q]) == SignatureOf(b[q])
    requires forall r, s :: SignatureOf(r) == SignatureOf(s) ==> field(r) == field(s)
    ensures Sum(a, field) == Sum(b, field)
  {
    hide SignatureOf;
    if a != [] {
      SameFieldsSameSum(a[1..], b[1..], field);
    }
  }

  /** Net, fee and tax of the covered rows survive reordering. */
  lemma MoneySurvivesReordering(a: seq<ReconRow>, b: seq<ReconRow>)
    requires |a| == |b| && forall q :: 0 <= q < |a| ==> SignatureOf(a[q]) == SignatureOf(b[q])
    ensures Sum(a, (r: ReconRow) => r.Net()) == Sum(b, (r: ReconRow) => r.Net())
    ensures Sum(a, (r: ReconRow) => r.fee) == Sum(b, (r: ReconRow) => r.fee)
    ensures Sum(a, (r: ReconRow) => r.tax) == Sum(b, (r: ReconRow) => r.tax)
  {
    SameFieldsSameSum(a, b, (r: ReconRow) => r.Net());
    SameFieldsSameSum(a, b, (r: ReconRow) => r.fee);
    SameFieldsSameSum(a, b, (r: ReconRow) => r.tax);
  }

  /** Covering one row twice never resolves, whatever the report. */
  lemma RepeatedRowIsRefused(rows: seq<ReconRow>, d: Digest, positions: seq<nat>, q: nat, r: nat,
                             byId: map<CanonicalId, ReconRow>)
    requires InReport(rows, positions)
    requires q < r < |positions| && positions[q] == positions[r]
    ensures ResolvedBy(CoverRows(rows, d, positions), byId) == Refused(DuplicateRowId)
  {
    var rec := CoverRows(rows, d, positions);
    assert rec.rowIds[q] == rec.rowIds[r];
  }

  // ----- Capture evidence is outside the signature

  function Capture(r: ReconRow): (Option<int>, Option<int>) {
    (r.authorized, r.captured)
  }

  /** The resolution reads the capture evidence of the covered rows, place by place. */
  ghost predicate SameCapture(rows: seq<ReconRow>, ps: seq<nat>, found: Resolution) {
    && InReport(rows, ps) && found.Resolved? && |found.rows| == |ps|
    && forall q :: 0 <= q < |ps| ==> Capture(found.rows[q]) == Capture(rows[ps[q]])
  }

  ghost predicate Reorders(rows: seq<ReconRow>, rows': seq<ReconRow>, d: Digest, byId: map<CanonicalId, ReconRow>) {
    multiset(rows) == multiset(rows') && IsIndex(rows', d, byId)
  }

  /** Whatever rows are covered, however the report is reordered, they keep their capture evidence. */
  ghost predicate CaptureSurvives(rows: seq<ReconRow>, d: Digest) {
    forall rows', byId, ps :: Reorders(rows, rows', d, byId) && DistinctPositions(ps, |rows|) ==>
      SameCapture(rows, ps, ResolvedBy(CoverRows(rows, d, ps), byId))
  }

  /** Rows that agree on every signed field agree on their capture evidence. */
  ghost predicate CaptureIsDetermined(rows: seq<ReconRow>) {
    forall i, j :: 0 <= i < j < |rows| && SignatureOf(rows[i]) == SignatureOf(rows[j]) ==>
      Capture(rows[i]) == Capture(rows[j])
  }

  /** Capture evidence survives every reordering, for every list of covered rows, if and only if the
      report has no two rows that agree on every signed field and differ in it. */
  lemma CaptureSurvivesExactlyWhen(rows: seq<ReconRow>, d: Digest)
    requires CollisionFree(d)
    ensures CaptureSurvives(rows, d) <==> CaptureIsDetermined(rows)
  {
    hide ResolvedBy, CollisionFree, IsIndex, SignatureOf, SameCapture, Reorders, Capture, CoverRows;
    if CaptureIsDetermined(rows) {
      forall rows', byId, ps | Reorders(rows, rows', d, byId) && DistinctPositions(ps, |rows|)
        ensures SameCapture(rows, ps, ResolvedBy(CoverRows(rows, d, ps), byId))
      {
        DeterminedSurvives(rows, rows', d, byId, ps);
      }
    } else {
      var i, j :| 0 <= i < j < |rows| && SignatureOf(rows[i]) == SignatureOf(rows[j])
                  && Capture(rows[i]) != Capture(rows[j]);
      var rows', byId := Swapped(rows, d, i, j);
      SwapChangesCapture(rows, d, i, j, rows', byId);
      assert DistinctPositions([i], |rows|);
    }
  }

  lemma DeterminedSurvives(rows: seq<ReconRow>, rows': seq<ReconRow>, d: Digest, byId: map<CanonicalId, ReconRow>,
                           ps: seq<nat>)
    requires CollisionFree(d) && CaptureIsDetermined(rows) && Reorders(rows, rows', d, byId)
    requires DistinctPositions(ps, |rows|)
    ensures SameCapture(rows, ps, ResolvedBy(CoverRows(rows, d, ps), byId))
  {
    hide ResolvedBy, CollisionFree, IsIndex, SignatureOf, Capture, CoverRows, IdAt;
    var js := ResolvesToCarriers(rows, rows', d, ps, byId);
    forall q | 0 <= q < |ps|
      ensures Capture(rows'[js[q]]) == Capture(rows[ps[q]])
    {
      assert rows'[js[q]] in multiset(rows');
      var i :| 0 <= i < |rows| && rows[i] == rows'[js[q]];
      assert i < ps[q] || i > ps[q] || i == ps[q];
    }
  }

  /** The report with two rows exchanged, and its index. */
  lemma Swapped(rows: seq<ReconRow>, d: Digest, i: nat, j: nat)
    returns (rows': seq<ReconRow>, byId: map<CanonicalId, ReconRow>)
    requires CollisionFree(d) && i < j < |rows|
    ensures rows' == rows[i := rows[j]][j := rows[i]] && Reorders(rows, rows', d, byId)
  {
    rows' := rows[i := rows[j]][j := rows[i]];
    byId := IndexExists(rows', d);
  }

  lemma {:induction false} IndexExists(rows: seq<ReconRow>, d: Digest) returns (byId: map<CanonicalId, ReconRow>)
    requires CollisionFree(d)
    ensures IsIndex(rows, d, byId)
  {
    hide IdAt, CollisionFree;
    byId := map[];
    if rows != [] {
      var n := |rows| - 1;
      byId := IndexExists(rows[..n], d);
      forall i | 0 <= i < n
        ensures IdAt(rows, d, i) == IdAt(rows[..n], d, i) && IdAt(rows, d, i) != IdAt(rows, d, n)
      {
        IdOfPrefix(rows, n, d, i);
        CanonicalIdsAreDistinct(rows, d, i, n);
      }
      byId := byId[IdAt(rows, d, n) := rows[n]];
    }
  }

  lemma IdOfPrefix(rows: seq<ReconRow>, n: nat, d: Digest, i: nat)
    requires i < n <= |rows|
    ensures IdAt(rows, d, i) == IdAt(rows[..n], d, i)
  {
    assert rows[..n][..i] == rows[..i];
  }

  /** Exchanging two rows of one signature exchanges what their ids find. */
  lemma SwapChangesCapture(rows: seq<ReconRow>, d: Digest, i: nat, j: nat, rows': seq<ReconRow>,
                           byId: map<CanonicalId, ReconRow>)
    requires CollisionFree(d) && i < j < |rows| && rows' == rows[i := rows[j]][j := rows[i]]
    requires Reorders(rows, rows', d, byId)
    requires SignatureOf(rows[i]) == SignatureOf(rows[j]) && Capture(rows[i]) != Capture(rows[j])
    ensures !SameCapture(rows, [i], ResolvedBy(CoverRows(rows, d, [i]), byId))
  {
    hide ResolvedBy, CollisionFree, IsIndex, SignatureOf, Capture, IdAt;
    var js := ResolvesToCarriers(rows, rows', d, [i], byId);
    IdOfSwapped(rows, rows', d, i, j);
    if js[0] < i {
      CanonicalIdsAreDistinct(rows', d, js[0], i);
    } else if js[0] > i {
      CanonicalIdsAreDistinct(rows', d, i, js[0]);
    }
  }

  lemma IdOfSwapped(rows: seq<ReconRow>, rows': seq<ReconRow>, d: Digest, i: nat, j: nat)
    requires i < j < |rows| && rows' == rows[i := rows[j]][j := rows[i]] && SignatureOf(rows[i]) == SignatureOf(rows[j])
    ensures IdAt(rows', d, i) == IdAt(rows, d, i)
  {
    hide SignatureOf;
    assert rows'[..i] == rows[..i];
  }

  // ----- All rows of a group are covered together

  ghost predicate Kept(rows: seq<ReconRow>, ps: seq<nat>, keep: ReconRow -> bool) {
    DistinctPositions(ps, |rows|) && forall p :: p in ps ==> p < |rows| && keep(rows[p])
  }

  ghost predicate NoneMissed(rows: seq<ReconRow>, ps: seq<nat>, keep: ReconRow -> bool) {
    forall p :: 0 <= p < |rows| && keep(rows[p]) ==> p in ps
  }

  /** Distinct positions of rows with a property pick, with multiplicity, at most all rows that have
      it, and exactly those when no position is missed. */
  lemma {:induction false} PickedRows(rows: seq<ReconRow>, ps: seq<nat>, keep: ReconRow -> bool)
    requires Kept(rows, ps, keep)
    ensures InReport(rows, ps) && multiset(RowsAt(rows, ps)) <= multiset(Filter(rows, keep))
    ensures NoneMissed(rows, ps, keep) ==> multiset(RowsAt(rows, ps)) == multiset(Filter(rows, keep))
  {
    hide Filter, Kept, NoneMissed, Drop, InReport, RowsAt;
    NonePicked(rows, ps, keep);
    if rows == [] {
      NothingKept(keep);
    } else {
      var n := |rows| - 1;
      LastKept(rows, keep);
      if n in ps {
        var q :| 0 <= q < |ps| && ps[q] == n;
        PickedLast(rows, ps, q, keep);
        PickedRows(rows[..n], Drop(ps, q), keep);
      } else {
        PickedBefore(rows, ps, keep);
        PickedRows(rows[..n], ps, keep);
      }
    }
  }

  lemma LastKept(rows: seq<ReconRow>, keep: ReconRow -> bool)
    requires rows != []
    ensures var n := |rows| - 1;
            multiset(Filter(rows, keep))
              == multiset(Filter(rows[..n], keep)) + if keep(rows[n]) then multiset{rows[n]} else multiset{}
  {
    hide Filter;
    FilterStep(rows, |rows| - 1, keep);
    assert rows[..|rows| - 1 + 1] == rows;
  }

  lemma NonePicked(rows: seq<ReconRow>, ps: seq<nat>, keep: ReconRow -> bool)
    requires Kept(rows, ps, keep)
    ensures InReport(rows, ps) && (ps != [] ==> rows != [])
  {
    if ps != [] {
      assert ps[0] < |rows|;
    }
  }

  lemma NothingKept(keep: ReconRow -> bool)
    ensures InReport([], []) && RowsAt([], []) == [] == Filter([], keep)
  {
  }

  lemma PickedBefore(rows: seq<ReconRow>, ps: seq<nat>, keep: ReconRow -> bool)
    requires Kept(rows, ps, keep) && rows != [] && |rows| - 1 !in ps
    ensures var n := |rows| - 1;
            && Kept(rows[..n], ps, keep) && InReport(rows, ps) && InReport(rows[..n], ps)
            && RowsAt(rows[..n], ps) == RowsAt(rows, ps)
            && (NoneMissed(rows, ps, keep) ==> NoneMissed(rows[..n], ps, keep) && !keep(rows[n]))
  {
    assert forall q :: 0 <= q < |ps| ==> ps[q] in ps;
  }

  lemma PickedLast(rows: seq<ReconRow>, ps: seq<nat>, q: nat, keep: ReconRow -> bool)
    requires Kept(rows, ps, keep) && q < |ps| && ps[q] == |rows| - 1
    ensures var n, rest := |rows| - 1, Drop(ps, q);
            && keep(rows[n]) && Kept(rows[..n], rest, keep) && InReport(rows, ps) && InReport(rows[..n], rest)
            && multiset(RowsAt(rows, ps)) == multiset(RowsAt(rows[..n], rest)) + multiset{rows[n]}
            && (NoneMissed(rows, ps, keep) ==> NoneMissed(rows[..n], rest, keep))
  {
    hide Drop, RowsAt;
    var n, rest := |rows| - 1, Drop(ps, q);
    assert ps[q] in ps;
    DropPosition(ps, q, |rows|);
    PickedDrop(rows, ps, q);
    assert forall r :: 0 <= r < |rest| ==> rest[r] in rest;
    assert RowsAt(rows, rest) == RowsAt(rows[..n], rest);
  }

  lemma DropPosition(ps: seq<nat>, q: nat, n: nat)
    requires DistinctPositions(ps, n) && q < |ps|
    ensures DistinctPositions(Drop(ps, q), n) && ps[q] !in Drop(ps, q)
    ensures forall p :: p in ps <==> p in Drop(ps, q) || p == ps[q]
  {
    SplitAt(ps, q);
  }

  lemma PickedDrop(rows: seq<ReconRow>, ps: seq<nat>, q: nat)
    requires InReport(rows, ps) && q < |ps| && InReport(rows, Drop(ps, q))
    ensures multiset(RowsAt(rows, ps)) == multiset(RowsAt(rows, Drop(ps, q))) + multiset{rows[ps[q]]}
  {
    DropMembers(RowsAt(rows, ps), q);
    assert Drop(RowsAt(rows, ps), q) == RowsAt(rows, Drop(ps, q));
  }

  lemma SameSizeSame<T>(a: multiset<T>, b: multiset<T>)
    requires a <= b && |a| == |b|
    ensures a == b
  {
    assert b == a + (b - a);
    assert |b - a| == 0;
  }

  /** Positions that cover every row with a signed property resolve, in any reordering, to the same
      rows, capture evidence included, although perhaps in another order. */
  lemma WholeGroupSurvives(rows: seq<ReconRow>, rows': seq<ReconRow>, d: Digest, ps: seq<nat>,
                           byId: map<CanonicalId, ReconRow>,
                           keep: ReconRow -> bool)
    requires CollisionFree(d) && DistinctPositions(ps, |rows|) && Reorders(rows, rows', d, byId)
    requires forall a, b :: SignatureOf(a) == SignatureOf(b) ==> keep(a) == keep(b)
    requires forall p :: 0 <= p < |rows| ==> (keep(rows[p]) <==> p in ps)
    ensures var found := ResolvedBy(CoverRows(rows, d, ps), byId);
            found.Resolved? && multiset(found.rows) == multiset(RowsAt(rows, ps))
  {
    hide ResolvedBy, CollisionFree, IsIndex, SignatureOf, CoverRows, IdAt, Filter;
    var js := ResolvesToCarriers(rows, rows', d, ps, byId);
    forall q | 0 <= q < |ps|
      ensures keep(rows'[js[q]])
    {
      assert ps[q] in ps;
    }
    PickedRows(rows, ps, keep);
    PickedRows(rows', js, keep);
    FilterReordered(rows, rows', keep);
    SameSize(rows, rows', ps, js, keep);
    SameSizeSame(multiset(RowsAt(rows', js)), multiset(Filter(rows', keep)));
  }

  lemma SameSize(rows: seq<ReconRow>, rows': seq<ReconRow>, ps: seq<nat>, js: seq<nat>, keep: ReconRow -> bool)
    requires InReport(rows, ps) && InReport(rows', js) && |ps| == |js|
    requires multiset(RowsAt(rows, ps)) == multiset(Filter(rows, keep)) == multiset(Filter(rows', keep))
    ensures |multiset(RowsAt(rows', js))| == |multiset(Filter(rows', keep))|
  {
    assert |multiset(RowsAt(rows, ps))| == |ps|;
  }

  // ----- What resolution requires

  /** The first place at which the row is missing or is another entity's. */
  ghost predicate FirstFault(rec: Covered, byId: map<CanonicalId, ReconRow>, pos: nat)
    requires |rec.rowIds| == |rec.entities|
  {
    && pos < |rec.rowIds| && (rec.rowIds[pos] in byId ==> Entity(byId[rec.rowIds[pos]]) != rec.entities[pos])
    && forall q :: 0 <= q < pos ==> rec.rowIds[q] in byId && Entity(byId[rec.rowIds[q]]) == rec.entities[q]
  }

  lemma {:induction false} FaultStops(ids: seq<CanonicalId>, entities: seq<(string, string)>,
                                      byId: map<CanonicalId, ReconRow>, from: nat, pos: nat)
    requires from <= pos < |ids| == |entities|
    requires forall q :: from <= q < pos ==> ids[q] in byId && Entity(byId[ids[q]]) == entities[q]
    requires ids[pos] in byId ==> Entity(byId[ids[pos]]) != entities[pos]
    ensures LookUp(ids, entities, byId, from) == Refused(if ids[pos] in byId then EntityMismatch else MissingRow)
    decreases pos - from
  {
    if from < pos {
      FaultStops(ids, entities, byId, from + 1, pos);
    }
  }

  lemma {:induction false} FaultOrNone(rec: Covered, byId: map<CanonicalId, ReconRow>, n: nat) returns (pos: nat)
    requires n <= |rec.rowIds| == |rec.entities|
    ensures pos < n ==> FirstFault(rec, byId, pos)
    ensures pos >= n ==> forall q :: 0 <= q < n ==>
              rec.rowIds[q] in byId && Entity(byId[rec.rowIds[q]]) == rec.entities[q]
  {
    if n == 0 {
      pos := 0;
    } else {
      pos := FaultOrNone(rec, byId, n - 1);
      if pos >= n - 1 {
        pos := if rec.rowIds[n - 1] in byId && Entity(byId[rec.rowIds[n - 1]]) == rec.entities[n - 1] then n else n - 1;
      }
    }
  }

  /** Resolution, exactly: it needs as many ids as entities, no id twice, and at each place a known row of
      the entity named there; it gives those rows, and otherwise names the first thing that fails. */
  lemma ResolvesExactlyWhen(rec: Covered, byId: map<CanonicalId, ReconRow>)
    ensures var r := ResolvedBy(rec, byId);
            && (r == Refused(CountMismatch) <==> |rec.rowIds| != |rec.entities|)
            && (r == Refused(DuplicateRowId) <==>
                  |rec.rowIds| == |rec.entities|
                  && exists i, j :: 0 <= i < j < |rec.rowIds| && rec.rowIds[i] == rec.rowIds[j])
    ensures |rec.rowIds| == |rec.entities| && DistinctIds(rec.rowIds) ==>
              var r := ResolvedBy(rec, byId);
              && (r == Refused(MissingRow) <==>
                    exists pos :: 0 <= pos < |rec.rowIds| && FirstFault(rec, byId, pos) && rec.rowIds[pos] !in byId)
              && (r == Refused(EntityMismatch) <==>
                    exists pos :: 0 <= pos < |rec.rowIds| && FirstFault(rec, byId, pos) && rec.rowIds[pos] in byId)
              && (r.Resolved? ==>
                    && |r.rows| == |rec.rowIds|
                    && forall q :: 0 <= q < |rec.rowIds| ==>
                         rec.rowIds[q] in byId && r.rows[q] == byId[rec.rowIds[q]]
                         && Entity(r.rows[q]) == rec.entities[q])
  {
    hide LookUp, Entity;
    if |rec.rowIds| == |rec.entities| {
      NeverEarlyRefusal(rec.rowIds, rec.entities, byId, 0);
      if DistinctIds(rec.rowIds) {
        var pos := FaultOrNone(rec, byId, |rec.rowIds|);
        if pos < |rec.rowIds| {
          FaultStops(rec.rowIds, rec.entities, byId, 0, pos);
          OneFirstFault(rec, byId, pos);
        } else {
          LookUpSucceeds(rec.rowIds, rec.entities, byId, 0);
        }
      }
    }
  }

  lemma {:induction false} NeverEarlyRefusal(ids: seq<CanonicalId>, entities: seq<(string, string)>,
                                             byId: map<CanonicalId, ReconRow>, pos: nat)
    requires pos <= |ids| == |entities|
    ensures var r := LookUp(ids, entities, byId, pos); r != Refused(CountMismatch) && r != Refused(DuplicateRowId)
    decreases |ids| - pos
  {
    if pos < |ids| {
      NeverEarlyRefusal(ids, entities, byId, pos + 1);
    }
  }

  lemma OneFirstFault(rec: Covered, byId: map<CanonicalId, ReconRow>, pos: nat)
    requires |rec.rowIds| == |rec.entities| && FirstFault(rec, byId, pos)
    ensures forall p: nat :: FirstFault(rec, byId, p) ==> p == pos
  {
  }
}
