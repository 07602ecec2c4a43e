/** Root-cause cascade for a credit that does not match its settlement, and the corrective voucher. */
module Investigate {
  import opened Options
  import opened Sequences
  import opened Journal
  import CoveredRows

  const TOLERANCE_PAISE := 100
  const SECONDS_PER_DAY := 86400

  datatype Cause = MdrFeeDrift | RefundLag | OnHoldRelease | DisputeDeduction | PartialCapture | BankChargeOrRounding
                 | RollingReserveHeld

  /** The fixed order in which classes are tried. */
  const TAXONOMY: seq<Cause> :=
    [MdrFeeDrift, RefundLag, OnHoldRelease, DisputeDeduction, PartialCapture, BankChargeOrRounding, RollingReserveHeld]

  /** The variance, the credit's own rows and the whole report; the standard fee of a gross amount and
      what a row's description mentions are given. */
  datatype Case = Case(
    variance: int, rows: seq<ReconRow>, report: seq<ReconRow>,
    standardFee: int -> int, mentionsRefund: ReconRow -> bool, mentionsReserve: ReconRow -> bool)

  function Near(x: int): bool { Abs(x) <= TOLERANCE_PAISE }

  function SumAmount(rows: seq<ReconRow>): int { SumBy(rows, (r: ReconRow) => r.amount) }

  /** An amount that may have been withheld or released: it follows the variance's direction. */
  function EitherWay(variance: int, amount: int): Option<int> {
    if amount > 0 && Near(Abs(variance) - amount) then Some(if variance < 0 then -amount else amount) else None
  }

  /** An amount that can only have been taken off the credit. */
  function Deduction(variance: int, amount: int): Option<int> {
    if amount > 0 && Near(variance + amount) then Some(-amount) else None
  }

  // ----- The classes

  function Gross(x: Case): int {
    SumAmount(Filter(x.rows, (r: ReconRow) => r.kind == "payment"))
  }

  function FeeSlab(x: Case): Option<int> {
    var drift := SumFee(x.rows) - x.standardFee(Gross(x));
    if SumFee(x.rows) > 0 && Gross(x) > 0 && Near(x.variance + drift) then Some(-drift) else None
  }

  function MdrDelta(x: Case): Option<int> {
    var tax := EitherWay(x.variance, SumTax(x.rows));
    if tax.Some? then tax else FeeSlab(x)
  }

  predicate OwnSettlement(x: Case, r: ReconRow) {
    r.settlementId.Some? && exists i :: 0 <= i < |x.rows| && x.rows[i].settlementId == r.settlementId
  }

  function RefundAmount(r: ReconRow): int {
    if r.amount != 0 then r.amount else r.debit
  }

  predicate CrossesCycle(r: ReconRow) {
    r.createdAt.Some? && r.settledAt.Some? && r.settledAt.value / SECONDS_PER_DAY > r.createdAt.value / SECONDS_PER_DAY
  }

  /** A refund of the credit's own settlement, carried over a cycle, that closes the variance. */
  predicate LateRefund(x: Case, r: ReconRow) {
    && OwnSettlement(x, r) && (r.kind == "refund" || (r.kind == "adjustment" && x.mentionsRefund(r)))
    && CrossesCycle(r) && Deduction(x.variance, RefundAmount(r)).Some?
  }

  function RefundDelta(x: Case): Option<int> {
    var late := Filter(x.report, (r: ReconRow) => LateRefund(x, r));
    if late == [] then None else Deduction(x.variance, RefundAmount(late[0]))
  }

  function OnHoldDelta(x: Case): Option<int> {
    EitherWay(x.variance, SumAmount(Filter(x.rows, (r: ReconRow) => r.onHold)))
  }

  function DisputeDelta(x: Case): Option<int> {
    Deduction(x.variance, SumAmount(Filter(x.rows, (r: ReconRow) => r.disputeId.Some?)))
  }

  predicate HasCapture(r: ReconRow) { r.authorized.Some? && r.captured.Some? }

  predicate OneSidedCapture(r: ReconRow) { r.authorized.Some? != r.captured.Some? }

  function Gap(r: ReconRow): int {
    if HasCapture(r) then r.authorized.value - r.captured.value else 0
  }

  /** Complete evidence: no one-sided row, every pair sensible, at least one genuine gap. */
  predicate CaptureEvidence(rows: seq<ReconRow>) {
    && (forall i :: 0 <= i < |rows| ==> !OneSidedCapture(rows[i]))
    && (forall i :: 0 <= i < |rows| && HasCapture(rows[i]) ==> rows[i].authorized.value >= rows[i].captured.value >= 0)
    && (exists i :: 0 <= i < |rows| && Gap(rows[i]) > 0)
  }

  function CaptureDelta(x: Case): Option<int> {
    if CaptureEvidence(x.rows) && Near(x.variance + SumBy(x.rows, Gap)) then Some(-SumBy(x.rows, Gap)) else None
  }

  function RoundingDelta(x: Case): Option<int> {
    if Near(x.variance) then Some(x.variance) else None
  }

  function ReserveDelta(x: Case): Option<int> {
    EitherWay(x.variance, SumAmount(Filter(x.rows, (r: ReconRow) => r.kind == "reserve" || x.mentionsReserve(r))))
  }

  /** The signed amount the class explains, if it closes the variance. */
  function Delta(c: Cause, x: Case): Option<int> {
    match c
    case MdrFeeDrift => MdrDelta(x)
    case RefundLag => RefundDelta(x)
    case OnHoldRelease => OnHoldDelta(x)
    case DisputeDeduction => DisputeDelta(x)
    case PartialCapture => CaptureDelta(x)
    case BankChargeOrRounding => RoundingDelta(x)
    case RollingReserveHeld => ReserveDelta(x)
  }

  // ----- When a class closes the variance, from the rows alone

  /** The amounts of the rows with a property. */
  function AmountWhere(rows: seq<ReconRow>, has: ReconRow -> bool): int {
    SumBy(rows, (r: ReconRow) => if has(r) then r.amount else 0)
  }

  lemma {:induction false} AmountOfKept(rows: seq<ReconRow>, has: ReconRow -> bool)
    ensures SumAmount(Filter(rows, has)) == AmountWhere(rows, has)
  {
    hide Filter, SumBy;
    var amount, where := (r: ReconRow) => r.amount, (r: ReconRow) => if has(r) then r.amount else 0;
    FilterUnfold(rows, has);
    if rows == [] {
      SumByEmpty(amount);
      SumByEmpty(where);
    } else {
      AmountOfKept(rows[1..], has);
      assert rows == [rows[0]] + rows[1..];
      SumByConcat([rows[0]], rows[1..], where);
      SumByOne(rows[0], where);
      SumByOne(rows[0], amount);
      SumByConcat(if has(rows[0]) then [rows[0]] else [], Filter(rows[1..], has), amount);
      SumByEmpty(amount);
    }
  }

  /** A withheld or released amount closes when it is the size of the variance to a rupee, and takes its direction. */
  predicate ClosesEitherWay(variance: int, amount: int, d: int) {
    amount > 0 && -100 <= Abs(variance) - amount <= 100 && d == (if variance < 0 then -amount else amount)
  }

  /** A deduction closes only a shortfall of its size to a rupee. */
  predicate ClosesShortfall(variance: int, amount: int, d: int) {
    amount > 0 && -100 <= variance + amount <= 100 && d == -amount
  }

  /** A refund of the credit's own settlement that was carried over a cycle. */
  predicate OwnLateRefund(x: Case, r: ReconRow) {
    && (r.kind == "refund" || (r.kind == "adjustment" && x.mentionsRefund(r)))
    && r.settlementId.Some? && (exists t :: t in x.rows && t.settlementId == r.settlementId)
    && r.createdAt.Some? && r.settledAt.Some?
    && r.createdAt.value / SECONDS_PER_DAY < r.settledAt.value / SECONDS_PER_DAY
  }

  predicate RefundCloses(x: Case, r: ReconRow, d: int) {
    OwnLateRefund(x, r) && ClosesShortfall(x.variance, if r.amount != 0 then r.amount else r.debit, d)
  }

  /** What the rows authorized and did not capture. */
  function Uncollected(rows: seq<ReconRow>): int {
    SumBy(rows, (r: ReconRow) =>
      if r.authorized.Some? && r.captured.Some? then r.authorized.value - r.captured.value else 0)
  }

  lemma UncollectedIsGaps(rows: seq<ReconRow>)
    ensures Uncollected(rows) == SumBy(rows, Gap)
  {
    hide SumBy;
    SumBySame(rows, (r: ReconRow) =>
      if r.authorized.Some? && r.captured.Some? then r.authorized.value - r.captured.value else 0, Gap);
  }

  /** The class closes the variance with the signed amount. */
  ghost predicate Closes(c: Cause, x: Case, d: int) {
    match c
    case MdrFeeDrift =>
      var tax, fee, gross := SumTax(x.rows), SumFee(x.rows), AmountWhere(x.rows, (r: ReconRow) => r.kind == "payment");
      ClosesEitherWay(x.variance, tax, d)
      || ((tax <= 0 || Abs(Abs(x.variance) - tax) > 100)
          && fee > 0 && gross > 0 && d == x.standardFee(gross) - fee && -100 <= x.variance - d <= 100)
    case RefundLag =>
      exists i :: 0 <= i < |x.report| && RefundCloses(x, x.report[i], d)
                  && forall j, e :: 0 <= j < i ==> !RefundCloses(x, x.report[j], e)
    case OnHoldRelease => ClosesEitherWay(x.variance, AmountWhere(x.rows, (r: ReconRow) => r.onHold), d)
    case DisputeDeduction => ClosesShortfall(x.variance, AmountWhere(x.rows, (r: ReconRow) => r.disputeId.Some?), d)
    case PartialCapture =>
      && (forall r :: r in x.rows ==> (r.authorized.Some? <==> r.captured.Some?))
      && (forall r :: r in x.rows && r.authorized.Some? && r.captured.Some? ==>
            r.authorized.value >= r.captured.value >= 0)
      && ClosesShortfall(x.variance, Uncollected(x.rows), d)
    case BankChargeOrRounding => -100 <= x.variance <= 100 && d == x.variance
    case RollingReserveHeld =>
      ClosesEitherWay(x.variance, AmountWhere(x.rows, (r: ReconRow) => r.kind == "reserve" || x.mentionsReserve(r)), d)
  }

  predicate Sensible(r: ReconRow) {
    !OneSidedCapture(r) && (HasCapture(r) ==> r.authorized.value >= r.captured.value >= 0)
  }

  lemma GapsAddUp(rows: seq<ReconRow>)
    requires forall r :: r in rows ==> Sensible(r)
    ensures SumBy(rows, Gap) > 0 <==> exists r :: r in rows && Gap(r) > 0
  {
    hide SumBy;
    forall i | 0 <= i < |rows|
      ensures Gap(rows[i]) >= 0
    {
      assert rows[i] in rows;
    }
    GapSum(rows);
    if r :| r in rows && Gap(r) > 0 {
      var i :| 0 <= i < |rows| && rows[i] == r;
    } else {
      NoGapSum(rows);
    }
  }

  lemma CaptureCloses(x: Case, d: int)
    ensures CaptureDelta(x) == Some(d) <==> Closes(PartialCapture, x, d)
  {
    hide SumBy, Uncollected, Gap, CaptureEvidence;
    CaptureEvidenceByMember(x.rows);
    UncollectedIsGaps(x.rows);
    assert forall r :: Sensible(r) <==>
             (r.authorized.Some? <==> r.captured.Some?)
             && (r.authorized.Some? && r.captured.Some? ==> r.authorized.value >= r.captured.value >= 0);
    if forall r :: r in x.rows ==> Sensible(r) {
      GapsAddUp(x.rows);
    }
  }

  lemma {:induction false} NoGapSum(rows: seq<ReconRow>)
    requires forall r :: r in rows ==> Gap(r) <= 0
    ensures SumBy(rows, Gap) <= 0
  {
    hide Gap;
    if rows != [] {
      var n := |rows| - 1;
      assert rows[n] in rows && forall r :: r in rows[..n] ==> r in rows;
      NoGapSum(rows[..n]);
    }
  }

  lemma RefundAsLate(x: Case, r: ReconRow)
    ensures LateRefund(x, r) <==> exists d :: RefundCloses(x, r, d)
    ensures LateRefund(x, r) ==>
              forall d :: RefundCloses(x, r, d) <==> Deduction(x.variance, RefundAmount(r)) == Some(d)
  {
    assert OwnSettlement(x, r) <==> r.settlementId.Some? && exists t :: t in x.rows && t.settlementId == r.settlementId;
    if LateRefund(x, r) {
      assert RefundCloses(x, r, -RefundAmount(r));
    }
  }

  lemma {:induction false} FirstKept<T>(s: seq<T>, keep: T -> bool) returns (i: nat)
    requires Filter(s, keep) != []
    ensures i < |s| && keep(s[i]) && Filter(s, keep)[0] == s[i] && forall j :: 0 <= j < i ==> !keep(s[j])
  {
    hide Filter;
    FilterUnfold(s, keep);
    if keep(s[0]) {
      i := 0;
    } else {
      i := FirstKept(s[1..], keep);
      i := i + 1;
      assert forall j :: 0 < j < i ==> s[j] == s[1..][j - 1];
    }
  }

  lemma KeepsAny<T>(s: seq<T>, keep: T -> bool)
    ensures (exists i :: 0 <= i < |s| && keep(s[i])) ==> Filter(s, keep) != []
  {
    hide Filter;
    if i :| 0 <= i < |s| && keep(s[i]) {
      assert s[i] in Filter(s, keep);
    }
  }

  lemma RefundClosesFirst(x: Case, d: int)
    ensures RefundDelta(x) == Some(d) <==> Closes(RefundLag, x, d)
  {
    hide Filter, LateRefund, RefundCloses, RefundAmount;
    var late := (r: ReconRow) => LateRefund(x, r);
    forall r
      ensures LateRefund(x, r) <==> exists e :: RefundCloses(x, r, e)
      ensures LateRefund(x, r) ==>
                forall e :: RefundCloses(x, r, e) <==> Deduction(x.variance, RefundAmount(r)) == Some(e)
    {
      RefundAsLate(x, r);
    }
    KeepsAny(x.report, late);
    assert forall i, e :: 0 <= i < |x.report| && RefundCloses(x, x.report[i], e) ==> late(x.report[i]);
    if Filter(x.report, late) != [] {
      var i := FirstKept(x.report, late);
      if Closes(RefundLag, x, d) {
        var k :| 0 <= k < |x.report| && RefundCloses(x, x.report[k], d)
                 && forall j, e :: 0 <= j < k ==> !RefundCloses(x, x.report[j], e);
        var e :| RefundCloses(x, x.report[i], e);
        assert late(x.report[k]);
        assert i == k;
      }
    }
  }

  /** Every class closes exactly when its own rows do, with the amount and sign they give. */
  lemma ClosesExactlyWhen(c: Cause, x: Case, d: int)
    ensures Delta(c, x) == Some(d) <==> Closes(c, x, d)
  {
    hide SumBy, Filter, CaptureDelta, RefundDelta;
    match c
    case MdrFeeDrift => AmountOfKept(x.rows, (r: ReconRow) => r.kind == "payment");
    case RefundLag => RefundClosesFirst(x, d);
    case OnHoldRelease => AmountOfKept(x.rows, (r: ReconRow) => r.onHold);
    case DisputeDeduction => AmountOfKept(x.rows, (r: ReconRow) => r.disputeId.Some?);
    case PartialCapture => CaptureCloses(x, d);
    case BankChargeOrRounding =>
    case RollingReserveHeld => AmountOfKept(x.rows, (r: ReconRow) => r.kind == "reserve" || x.mentionsReserve(r));
  }

  /** The place of a class in the order of trial. */
  function Turn(c: Cause): nat {
    match c
    case MdrFeeDrift => 0
    case RefundLag => 1
    case OnHoldRelease => 2
    case DisputeDeduction => 3
    case PartialCapture => 4
    case BankChargeOrRounding => 5
    case RollingReserveHeld => 6
  }

  /** The class closes the variance and none before it does. */
  ghost predicate ClosesFirst(c: Cause, x: Case, d: int) {
    Closes(c, x, d) && forall b, e :: Turn(b) < Turn(c) ==> !Closes(b, x, e)
  }

  lemma FirstInOrder(x: Case, k: nat, d: int)
    requires k < |TAXONOMY| && AllFailed(x, k) && Delta(TAXONOMY[k], x) == Some(d)
    ensures ClosesFirst(TAXONOMY[k], x, d)
  {
    hide Delta, Closes;
    ClosesExactlyWhen(TAXONOMY[k], x, d);
    forall b, e | Turn(b) < Turn(TAXONOMY[k])
      ensures !Closes(b, x, e)
    {
      ClosesExactlyWhen(b, x, e);
      assert TAXONOMY[Turn(b)] == b && Turn(b) < k;
    }
  }

  lemma NoneCloses(x: Case)
    requires AllFailed(x, |TAXONOMY|)
    ensures forall c, d :: !Closes(c, x, d)
  {
    hide Delta, Closes;
    forall c: Cause, d: int
      ensures !Closes(c, x, d)
    {
      ClosesExactlyWhen(c, x, d);
      assert TAXONOMY[Turn(c)] == c;
    }
  }

  // ----- The corrective voucher

  function CounterAccount(c: Cause): Account {
    match c
    case MdrFeeDrift => GatewayCharges
    case RefundLag => RefundSuspense
    case OnHoldRelease => OnHold
    case DisputeDeduction => Disputes
    case PartialCapture => Uncaptured
    case BankChargeOrRounding => Rounding
    case RollingReserveHeld => RollingReserve
  }

  /** The voucher books the explained amount against the class's own account. */
  predicate BooksTo(c: Cause, delta: int, ps: seq<Posting>) {
    && (c == MdrFeeDrift ==> Movement(ps, GatewayCharges) == -delta)
    && (c == RefundLag ==> Movement(ps, RefundSuspense) == -delta)
    && (c == OnHoldRelease ==> Movement(ps, OnHold) == -delta)
    && (c == DisputeDeduction ==> Movement(ps, Disputes) == -delta)
    && (c == PartialCapture ==> Movement(ps, Uncaptured) == -delta)
    && (c == BankChargeOrRounding ==> Movement(ps, Rounding) == -delta)
    && (c == RollingReserveHeld ==> Movement(ps, RollingReserve) == -delta)
  }

  /** `_make_corrective_entry`. Disputes and captures are only ever deductions. */
  method MakeCorrectiveEntry(c: Cause, delta: int) returns (ps: seq<Posting>)
    requires c == DisputeDeduction || c == PartialCapture ==> delta <= 0
    ensures Balanced(ps) && SumBy(ps, Signed) == 0
    ensures Movement(ps, Clearing) == delta && Movement(ps, CounterAccount(c)) == -delta && BooksTo(c, delta, ps)
    ensures forall a: Account :: a != Clearing && a != CounterAccount(c) ==> Movement(ps, a) == 0
  {
    hide SumBy, BooksTo;
    var abs := Abs(delta);
    ps := [];
    if c == DisputeDeduction || c == PartialCapture || delta < 0 {
      ps := ps + [Debit(CounterAccount(c), abs)];
      ps := ps + [Credit(Clearing, abs)];
    } else {
      ps := ps + [Debit(Clearing, abs)];
      ps := ps + [Credit(CounterAccount(c), abs)];
    }
    assert ps == [ps[0], ps[1]];
    forall f: Posting -> int
      ensures SumBy(ps, f) == f(ps[0]) + f(ps[1])
    {
      SumOfTwo(ps[0], ps[1], f);
    }
    BooksCounter(c, delta, ps);
  }

  lemma BooksCounter(c: Cause, delta: int, ps: seq<Posting>)
    requires Movement(ps, CounterAccount(c)) == -delta
    ensures BooksTo(c, delta, ps)
  {
    hide Movement;
  }

  lemma SumOfTwo(a: Posting, b: Posting, f: Posting -> int)
    ensures SumBy([a, b], f) == f(a) + f(b)
  {
    assert [a, b] == [a] + [b];
    SumByConcat([a], [b], f);
    SumByOne(a, f);
    SumByOne(b, f);
  }

  // ----- The cascade

  datatype Tried = Tried(cause: Cause, matched: bool, delta: int, left: int)

  datatype Diagnosis = NoContext | BalancedExactly | Unexplained
                     | Named(cause: Cause, delta: int, voucher: seq<Posting>)

  datatype Investigation = Investigation(variance: int, diagnosis: Diagnosis, tried: seq<Tried>)

  function Attempt(c: Cause, x: Case): Tried {
    if Delta(c, x).Some? then Tried(c, true, Delta(c, x).value, Abs(x.variance - Delta(c, x).value))
    else Tried(c, false, 0, Abs(x.variance))
  }

  /** Every class before `k` was tried and failed. */
  ghost predicate AllFailed(x: Case, k: nat) {
    k <= |TAXONOMY| && forall j :: 0 <= j < k ==> Delta(TAXONOMY[j], x).None?
  }

  function Attempts(x: Case, k: nat): (r: seq<Tried>)
    requires k <= |TAXONOMY|
    ensures |r| == k && forall j :: 0 <= j < k ==> r[j] == Attempt(TAXONOMY[j], x)
  {
    seq(k, j requires 0 <= j < k => Attempt(TAXONOMY[j], x))
  }

  /** What a named class gives: it closes the variance, no earlier one does, and the voucher moves
      the clearing account by exactly what it explains. */
  ghost predicate NamedCorrectly(x: Case, k: nat, inv: Investigation) {
    && k < |TAXONOMY| && inv.diagnosis.Named? && inv.diagnosis.cause == TAXONOMY[k]
    && AllFailed(x, k) && Delta(TAXONOMY[k], x) == Some(inv.diagnosis.delta)
    && inv.tried == Attempts(x, k + 1)
    && Near(x.variance - inv.diagnosis.delta)
    && Balanced(inv.diagnosis.voucher) && SumBy(inv.diagnosis.voucher, Signed) == 0
    && Movement(inv.diagnosis.voucher, Clearing) == inv.diagnosis.delta
    && Movement(inv.diagnosis.voucher, CounterAccount(inv.diagnosis.cause)) == -inv.diagnosis.delta
    && BooksTo(inv.diagnosis.cause, inv.diagnosis.delta, inv.diagnosis.voucher)
  }

  method FindLateRefund(x: Case) returns (delta: Option<int>)
    ensures delta == RefundDelta(x)
  {
    hide OwnSettlement, CrossesCycle, RefundAmount, Filter;
    ghost var keep := (r: ReconRow) => LateRefund(x, r);
    FilterUnfold(x.report[..0], keep);
    for i := 0 to |x.report|
      invariant Filter(x.report[..i], keep) == []
    {
      FilterStep(x.report, i, keep);
      if LateRefund(x, x.report[i]) {
        assert Filter(x.report, keep)[0] == x.report[i];
        return Deduction(x.variance, RefundAmount(x.report[i]));
      }
    }
    assert x.report[..|x.report|] == x.report;
    return None;
  }

  /** `investigate`, once the rows of the credit are known. */
  method InvestigateCase(x: Case) returns (inv: Investigation)
    ensures x.rows == [] ==> inv == Investigation(0, NoContext, [])
    ensures x.rows != [] && x.variance == 0 ==> inv == Investigation(0, BalancedExactly, [])
    ensures x.rows != [] && x.variance != 0 ==>
              inv.variance == x.variance && (inv.diagnosis.Unexplained? || inv.diagnosis.Named?)
    ensures inv.diagnosis.Unexplained? ==> AllFailed(x, |TAXONOMY|) && inv.tried == Attempts(x, |TAXONOMY|)
    ensures inv.diagnosis.Named? ==> exists k :: NamedCorrectly(x, k, inv)
    ensures inv.diagnosis.Named? ==> ClosesFirst(inv.diagnosis.cause, x, inv.diagnosis.delta)
    ensures inv.diagnosis.Unexplained? ==> forall c, d :: !Closes(c, x, d)
  {
    hide MdrDelta, RefundDelta, OnHoldDelta, DisputeDelta, CaptureDelta, RoundingDelta, ReserveDelta, Movement,
         Balanced, SumBy, Closes, ClosesFirst, BooksTo, Attempts, AllFailed, NamedCorrectly, Delta;
    if x.rows == [] {
      return Investigation(0, NoContext, []);
    }
    if x.variance == 0 {
      return Investigation(0, BalancedExactly, []);
    }
    var tried: seq<Tried> := [];
    var k := 0;
    NothingTried(x);
    while k < |TAXONOMY|
      invariant 0 <= k <= |TAXONOMY| && AllFailed(x, k) && tried == Attempts(x, k)
    {
      var c := TAXONOMY[k];
      TriedNext(x, k);
      var delta;
      if c == RefundLag {
        delta := FindLateRefund(x);
        LateRefundIsDelta(x);
      } else {
        delta := Delta(c, x);
      }
      if delta.Some? {
        DeltaCloses(c, x);
        tried := tried + [Tried(c, true, delta.value, Abs(x.variance - delta.value))];
        var voucher := MakeCorrectiveEntry(c, delta.value);
        inv := Investigation(x.variance, Named(c, delta.value, voucher), tried);
        NamedAtTurn(x, k, inv);
        FirstInOrder(x, k, delta.value);
        return;
      }
      tried := tried + [Tried(c, false, 0, Abs(x.variance))];
      k := k + 1;
    }
    NoneCloses(x);
    return Investigation(x.variance, Unexplained, tried);
  }

  lemma LateRefundIsDelta(x: Case)
    ensures Delta(RefundLag, x) == RefundDelta(x)
  {
  }

  lemma NothingTried(x: Case)
    ensures AllFailed(x, 0) && Attempts(x, 0) == []
  {
  }

  lemma TriedNext(x: Case, k: nat)
    requires k < |TAXONOMY| && AllFailed(x, k)
    ensures Attempts(x, k + 1) == Attempts(x, k) + [Attempt(TAXONOMY[k], x)]
    ensures Delta(TAXONOMY[k], x).None? ==> AllFailed(x, k + 1)
  {
    hide Delta, Attempt;
  }

  lemma NamedAtTurn(x: Case, k: nat, inv: Investigation)
    requires k < |TAXONOMY| && inv.diagnosis.Named? && inv.diagnosis.cause == TAXONOMY[k]
    requires AllFailed(x, k) && Delta(TAXONOMY[k], x) == Some(inv.diagnosis.delta) && inv.tried == Attempts(x, k + 1)
    requires Near(x.variance - inv.diagnosis.delta)
    requires var ps, delta := inv.diagnosis.voucher, inv.diagnosis.delta;
             && Balanced(ps) && SumBy(ps, Signed) == 0 && Movement(ps, Clearing) == delta
             && Movement(ps, CounterAccount(inv.diagnosis.cause)) == -delta && BooksTo(inv.diagnosis.cause, delta, ps)
    ensures NamedCorrectly(x, k, inv)
  {
    hide AllFailed, Delta, Attempts, Balanced, SumBy, Movement, BooksTo;
  }

  // ----- What every class guarantees

  lemma {:induction false} GapSum(rows: seq<ReconRow>)
    requires forall i :: 0 <= i < |rows| ==> Gap(rows[i]) >= 0
    ensures SumBy(rows, Gap) >= 0
    ensures (exists i :: 0 <= i < |rows| && Gap(rows[i]) > 0) ==> SumBy(rows, Gap) > 0
  {
    hide Gap;
    if rows != [] {
      var front := rows[..|rows| - 1];
      assert forall i :: 0 <= i < |front| ==> front[i] == rows[i];
      GapSum(front);
    }
  }

  lemma CaptureIsDeduction(x: Case)
    ensures CaptureDelta(x).Some? ==> CaptureDelta(x).value < 0 && Near(x.variance - CaptureDelta(x).value)
  {
    if CaptureEvidence(x.rows) {
      GapSum(x.rows);
    }
  }

  /** A class that closes the variance leaves at most the tolerance, and deductions are negative. */
  lemma DeltaCloses(c: Cause, x: Case)
    requires Delta(c, x).Some?
    ensures Near(x.variance - Delta(c, x).value)
    ensures c == RefundLag || c == DisputeDeduction || c == PartialCapture ==> Delta(c, x).value < 0
  {
    hide SumBy, Filter, CaptureDelta, LateRefund, RefundAmount;
    CaptureIsDeduction(x);
  }

  /** Unexplained means exactly that every class fails; then the variance exceeds the tolerance. */
  lemma UnexplainedExceedsTolerance(x: Case)
    requires AllFailed(x, |TAXONOMY|)
    ensures Abs(x.variance) > TOLERANCE_PAISE
  {
    assert TAXONOMY[5] == BankChargeOrRounding;
    assert Delta(TAXONOMY[5], x).None?;
  }

  /** A credit reconciled within the drift is always explained. */
  lemma ReconciledIsExplained(x: Case, inv: Investigation)
    requires Near(x.variance)
    requires inv.diagnosis.Unexplained? ==> AllFailed(x, |TAXONOMY|)
    ensures !inv.diagnosis.Unexplained?
  {
    if inv.diagnosis.Unexplained? {
      UnexplainedExceedsTolerance(x);
    }
  }

  /** A named class explains nothing, and its voucher posts zeros, exactly when the fee slab matches
      to the paise: a drift of at most the tolerance is then booked to no account. */
  lemma ExplainsNothingExactlyWhen(c: Cause, x: Case)
    requires Delta(c, x).Some? && x.variance != 0
    ensures Delta(c, x).value == 0 <==>
            c == MdrFeeDrift && EitherWay(x.variance, SumTax(x.rows)).None? && SumFee(x.rows) == x.standardFee(Gross(x))
  {
    hide SumBy, Filter, CaptureDelta, LateRefund, RefundAmount, Gross;
    CaptureIsDeduction(x);
  }

  /** The concrete case: a fee on the slab to the paise is named for a variance of fifty paise and
      explains none of it. */
  lemma FeeSlabExplainsNothing()
    ensures var r := CoveredRows.ReconRow("payment", "pay", 10000, 236, 0, 0, 9764, None, None, None, None, false, None,
                                          None, None, None, None, None, None);
            var x := Case(50, [r], [r], (gross: int) => gross * 236 / 10000, (q: ReconRow) => false,
                          (q: ReconRow) => false);
            Delta(TAXONOMY[0], x) == Some(0)
  {
    hide SumBy, Filter;
    var r := CoveredRows.ReconRow("payment", "pay", 10000, 236, 0, 0, 9764, None, None, None, None, false, None, None,
                                  None, None, None, None, None);
    SumByOne(r, (q: ReconRow) => q.fee);
    SumByOne(r, (q: ReconRow) => q.tax);
    SumByOne(r, (q: ReconRow) => q.amount);
    FilterOne(r, (q: ReconRow) => q.kind == "payment");
  }

  // ----- No class without its evidence

  /** The rows that must be there for a class to be named. */
  ghost predicate HasEvidence(c: Cause, x: Case) {
    match c
    case MdrFeeDrift => exists r :: r in x.rows && (r.tax != 0 || r.fee != 0)
    case RefundLag => exists r :: r in x.report && OwnSettlement(x, r) && CrossesCycle(r) && RefundAmount(r) > 0
    case OnHoldRelease => exists r :: r in x.rows && r.onHold
    case DisputeDeduction => exists r :: r in x.rows && r.disputeId.Some?
    case PartialCapture => exists r :: r in x.rows && HasCapture(r) && r.authorized.value > r.captured.value
    case BankChargeOrRounding => true
    case RollingReserveHeld => exists r :: r in x.rows && (r.kind == "reserve" || x.mentionsReserve(r))
  }

  lemma SumNeedsRow(rows: seq<ReconRow>, f: ReconRow -> int)
    requires SumBy(rows, f) != 0
    ensures rows != []
  {
  }

  lemma {:induction false} SomeNonZero(rows: seq<ReconRow>, f: ReconRow -> int)
    requires SumBy(rows, f) != 0
    ensures exists r :: r in rows && f(r) != 0
  {
    var last := rows[|rows| - 1];
    assert last in rows;
    if f(last) == 0 {
      SomeNonZero(rows[..|rows| - 1], f);
    }
  }

  lemma KeptHasRow(rows: seq<ReconRow>, keep: ReconRow -> bool)
    requires SumAmount(Filter(rows, keep)) > 0
    ensures exists r :: r in rows && keep(r)
  {
    hide Filter, SumBy;
    SumNeedsRow(Filter(rows, keep), (r: ReconRow) => r.amount);
    assert Filter(rows, keep)[0] in Filter(rows, keep);
  }

  /** A class that closes the variance has rows of its own kind behind it: it is never inferred from the
      amount alone. */
  lemma CauseHasEvidence(c: Cause, x: Case)
    requires Delta(c, x).Some?
    ensures HasEvidence(c, x)
  {
    hide SumBy, Filter;
    match c {
      case MdrFeeDrift =>
        if EitherWay(x.variance, SumTax(x.rows)).Some? {
          SomeNonZero(x.rows, (r: ReconRow) => r.tax);
        } else {
          SomeNonZero(x.rows, (r: ReconRow) => r.fee);
        }
      case RefundLag =>
        var late := Filter(x.report, (r: ReconRow) => LateRefund(x, r));
        assert late[0] in late;
      case OnHoldRelease => KeptHasRow(x.rows, (r: ReconRow) => r.onHold);
      case DisputeDeduction => KeptHasRow(x.rows, (r: ReconRow) => r.disputeId.Some?);
      case PartialCapture =>
        var i :| 0 <= i < |x.rows| && Gap(x.rows[i]) > 0;
        assert x.rows[i] in x.rows;
      case BankChargeOrRounding =>
      case RollingReserveHeld => KeptHasRow(x.rows, (r: ReconRow) => r.kind == "reserve" || x.mentionsReserve(r));
    }
  }

  // ----- The order of rows decides nothing but which late refund is named

  ghost predicate Reordered(x: Case, y: Case) {
    && y == x.(rows := y.rows, report := y.report)
    && multiset(x.rows) == multiset(y.rows) && multiset(x.report) == multiset(y.report)
  }

  lemma SumReordered(a: seq<ReconRow>, b: seq<ReconRow>, keep: ReconRow -> bool)
    requires multiset(a) == multiset(b)
    ensures SumAmount(Filter(a, keep)) == SumAmount(Filter(b, keep))
  {
    FilterReordered(a, b, keep);
    SumByMembers(Filter(a, keep), Filter(b, keep), (r: ReconRow) => r.amount);
  }

  lemma ChargesReordered(a: seq<ReconRow>, b: seq<ReconRow>)
    requires multiset(a) == multiset(b)
    ensures SumFee(a) == SumFee(b) && SumTax(a) == SumTax(b) && SumBy(a, Gap) == SumBy(b, Gap)
  {
    SumByMembers(a, b, (r: ReconRow) => r.fee);
    SumByMembers(a, b, (r: ReconRow) => r.tax);
    SumByMembers(a, b, Gap);
  }

  lemma SameMembers<T>(a: seq<T>, b: seq<T>)
    requires multiset(a) == multiset(b)
    ensures forall x :: x in a <==> x in b
  {
    assert forall x :: x in a <==> x in multiset(a);
    assert forall x :: x in b <==> x in multiset(b);
  }

  /** Read off membership alone, not positions. */
  lemma CaptureEvidenceByMember(rows: seq<ReconRow>)
    ensures CaptureEvidence(rows) <==>
              && (forall r :: r in rows ==>
                    !OneSidedCapture(r) && (HasCapture(r) ==> r.authorized.value >= r.captured.value >= 0))
              && exists r :: r in rows && Gap(r) > 0
  {
    hide Gap, OneSidedCapture;
    if CaptureEvidence(rows) {
      var i :| 0 <= i < |rows| && Gap(rows[i]) > 0;
      assert rows[i] in rows;
    }
  }

  lemma CaptureReordered(a: seq<ReconRow>, b: seq<ReconRow>)
    requires multiset(a) == multiset(b)
    ensures CaptureEvidence(a) <==> CaptureEvidence(b)
  {
    hide Gap, OneSidedCapture, CaptureEvidence;
    SameMembers(a, b);
    CaptureEvidenceByMember(a);
    CaptureEvidenceByMember(b);
  }

  lemma LateRefundReordered(x: Case, y: Case, r: ReconRow)
    requires Reordered(x, y)
    ensures LateRefund(x, r) == LateRefund(y, r)
  {
    hide CrossesCycle, RefundAmount;
    SameMembers(x.rows, y.rows);
    assert OwnSettlement(x, r) <==> r.settlementId.Some? && exists t :: t in x.rows && t.settlementId == r.settlementId;
    assert OwnSettlement(y, r) <==> r.settlementId.Some? && exists t :: t in y.rows && t.settlementId == r.settlementId;
  }

  lemma RefundByMember(x: Case)
    ensures RefundDelta(x).Some? <==> exists r :: r in x.report && LateRefund(x, r)
  {
    hide Filter, OwnSettlement, CrossesCycle, RefundAmount;
    var keep := (r: ReconRow) => LateRefund(x, r);
    if r :| r in x.report && LateRefund(x, r) {
      assert r in Filter(x.report, keep);
    }
    if Filter(x.report, keep) != [] {
      assert Filter(x.report, keep)[0] in Filter(x.report, keep);
    }
  }

  /** Whichever way the report is ordered, the same classes close the variance, and each explains the
      same amount; only a late refund may be another one that closes it as well. */
  lemma CauseSurvivesReordering(c: Cause, x: Case, y: Case)
    requires Reordered(x, y)
    ensures Delta(c, x).Some? == Delta(c, y).Some?
    ensures c != RefundLag ==> Delta(c, x) == Delta(c, y)
  {
    hide SumBy, Filter, CaptureEvidence, RefundDelta, LateRefund;
    match c
    case RefundLag =>
      RefundByMember(x);
      RefundByMember(y);
      SameMembers(x.report, y.report);
      forall r
        ensures LateRefund(x, r) == LateRefund(y, r)
      {
        LateRefundReordered(x, y, r);
      }
    case MdrFeeDrift =>
      ChargesReordered(x.rows, y.rows);
      SumReordered(x.rows, y.rows, (r: ReconRow) => r.kind == "payment");
    case OnHoldRelease =>
      SumReordered(x.rows, y.rows, (r: ReconRow) => r.onHold);
    case DisputeDeduction =>
      SumReordered(x.rows, y.rows, (r: ReconRow) => r.disputeId.Some?);
    case PartialCapture =>
      ChargesReordered(x.rows, y.rows);
      CaptureReordered(x.rows, y.rows);
    case BankChargeOrRounding =>
    case RollingReserveHeld =>
      SumReordered(x.rows, y.rows, (r: ReconRow) => r.kind == "reserve" || x.mentionsReserve(r));
  }
}
