/** Balanced vouchers from reconciled settlements, and the recoverable fee-GST. */
module Journal {
  import opened Sequences
  import CoveredRows

  type ReconRow = CoveredRows.ReconRow

  datatype Account = Bank | GatewayCharges | InputCgst | InputSgst | InputIgst | Clearing | Rounding
                   | Disputes | OnHold | RollingReserve | RefundSuspense | Uncaptured

  datatype Posting = Posting(account: Account, debit: int, credit: int)

  function Debit(a: Account, paise: int): Posting { Posting(a, paise, 0) }

  function Credit(a: Account, paise: int): Posting { Posting(a, 0, paise) }

  function TotalDebit(ps: seq<Posting>): int {
    SumBy(ps, (p: Posting) => p.debit)
  }

  function TotalCredit(ps: seq<Posting>): int {
    SumBy(ps, (p: Posting) => p.credit)
  }

  predicate Balanced(ps: seq<Posting>) {
    TotalDebit(ps) == TotalCredit(ps)
  }

  /** What the voucher adds to an account: debits less credits. */
  function Movement(ps: seq<Posting>, a: Account): int {
    SumBy(ps, (p: Posting) => if p.account == a then p.debit - p.credit else 0)
  }

  /** The Tally export's signed amount: a debit is negative, anything else is the credit. */
  function Signed(p: Posting): int {
    if p.debit != 0 then -p.debit else p.credit
  }

  predicate OneSided(p: Posting) {
    p.debit == 0 || p.credit == 0
  }

  /** A balanced voucher of one-sided postings exports to amounts that sum to zero. */
  lemma {:induction false} SignedSum(ps: seq<Posting>)
    requires forall i :: 0 <= i < |ps| ==> OneSided(ps[i])
    ensures SumBy(ps, Signed) == TotalCredit(ps) - TotalDebit(ps)
  {
    if ps != [] {
      SignedSum(ps[..|ps| - 1]);
    }
  }

  // ----- The voucher of one result

  datatype Reconciled = Reconciled(key: int, coveredNet: int, creditAmount: int, covered: CoveredRows.Covered)

  function SumFee(rows: seq<ReconRow>): int { SumBy(rows, (r: ReconRow) => r.fee) }

  function SumTax(rows: seq<ReconRow>): int { SumBy(rows, (r: ReconRow) => r.tax) }

  function Abs(x: int): int { if x < 0 then -x else x }

  function FeePayments(rows: seq<ReconRow>): seq<ReconRow> {
    Filter(rows, (r: ReconRow) => r.kind == "payment" && (r.fee != 0 || r.tax != 0))
  }

  /** Whether the report folds the tax into the fee, by which formula reproduces its credits. */
  predicate TaxInsideFee(rows: seq<ReconRow>) {
    var pays := FeePayments(rows);
    var amount, credit := SumBy(pays, (r: ReconRow) => r.amount), SumBy(pays, (r: ReconRow) => r.credit);
    pays == [] || Abs(credit - (amount - SumFee(pays))) <= Abs(credit - (amount - SumFee(pays) - SumTax(pays)))
  }

  function Charges(rows: seq<ReconRow>): int {
    if TaxInsideFee(rows) then SumFee(rows) - SumTax(rows) else SumFee(rows)
  }

  function DriftPosting(drift: int): seq<Posting> {
    if drift > 0 then [Credit(Rounding, drift)] else if drift < 0 then [Debit(Rounding, -drift)] else []
  }

  function GstPostings(itc: int, intraState: bool): seq<Posting> {
    if itc == 0 then []
    else if intraState then [Debit(InputCgst, itc / 2), Debit(InputSgst, itc - itc / 2)]
    else [Debit(InputIgst, itc)]
  }

  function Voucher(rec: Reconciled, rows: seq<ReconRow>, intraState: bool): seq<Posting> {
    var charges, itc := Charges(rows), SumTax(rows);
    [Debit(Bank, rec.creditAmount)] + DriftPosting(rec.creditAmount - rec.coveredNet)
    + (if charges != 0 then [Debit(GatewayCharges, charges)] else [])
    + GstPostings(itc, intraState)
    + [Credit(Clearing, rec.coveredNet + charges + itc)]
  }

  function GstMovement(ps: seq<Posting>): int {
    Movement(ps, InputCgst) + Movement(ps, InputSgst) + Movement(ps, InputIgst)
  }

  lemma SumOfParts(a: seq<Posting>, b: seq<Posting>, c: seq<Posting>, d: seq<Posting>, e: seq<Posting>,
                   f: Posting -> int)
    ensures SumBy(a + b + c + d + e, f) == SumBy(a, f) + SumBy(b, f) + SumBy(c, f) + SumBy(d, f) + SumBy(e, f)
  {
    SumByConcat(a, b, f);
    SumByConcat(a + b, c, f);
    SumByConcat(a + b + c, d, f);
    SumByConcat(a + b + c + d, e, f);
  }

  /** The part of a voucher that any sum over its postings is made of. */
  lemma VoucherSum(rec: Reconciled, rows: seq<ReconRow>, intraState: bool, f: Posting -> int)
    ensures var charges, itc := Charges(rows), SumTax(rows);
            SumBy(Voucher(rec, rows, intraState), f) ==
              f(Debit(Bank, rec.creditAmount)) + SumBy(DriftPosting(rec.creditAmount - rec.coveredNet), f)
              + (if charges != 0 then f(Debit(GatewayCharges, charges)) else 0)
              + SumBy(GstPostings(itc, intraState), f) + f(Credit(Clearing, rec.coveredNet + charges + itc))
  {
    hide Charges, SumTax, DriftPosting, GstPostings, SumBy;
    var charges, itc := Charges(rows), SumTax(rows);
    var drift, gst := DriftPosting(rec.creditAmount - rec.coveredNet), GstPostings(itc, intraState);
    var mdr := if charges != 0 then [Debit(GatewayCharges, charges)] else [];
    SumOfParts([Debit(Bank, rec.creditAmount)], drift, mdr, gst, [Credit(Clearing, rec.coveredNet + charges + itc)], f);
    SumByOne(Debit(Bank, rec.creditAmount), f);
    SumByOne(Credit(Clearing, rec.coveredNet + charges + itc), f);
    SumByOne(Debit(GatewayCharges, charges), f);
    SumByNone(f);
  }

  lemma SumByNone(f: Posting -> int)
    ensures SumBy([], f) == 0
  {
  }

  lemma SmallSums(drift: int, itc: int, intraState: bool, f: Posting -> int)
    ensures SumBy(DriftPosting(drift), f) ==
            if drift > 0 then f(Credit(Rounding, drift)) else if drift < 0 then f(Debit(Rounding, -drift)) else 0
    ensures SumBy(GstPostings(itc, intraState), f) ==
            if itc == 0 then 0
            else if intraState then f(Debit(InputCgst, itc / 2)) + f(Debit(InputSgst, itc - itc / 2))
            else f(Debit(InputIgst, itc))
  {
    SumByOne(Credit(Rounding, drift), f);
    SumByOne(Debit(Rounding, -drift), f);
    SumByOne(Debit(InputIgst, itc), f);
    var a, b := Debit(InputCgst, itc / 2), Debit(InputSgst, itc - itc / 2);
    SumByOne(a, f);
    SumByOne(b, f);
    SumByConcat([a], [b], f);
    assert [a] + [b] == [a, b];
  }

  /** Every voucher balances, for any fees, tax, convention and drift; the bank moves by the credit,
      the input-GST accounts by the tax, and its Tally amounts sum to zero. */
  lemma VoucherIsBalanced(rec: Reconciled, rows: seq<ReconRow>, intraState: bool)
    ensures var v := Voucher(rec, rows, intraState);
            && Balanced(v) && SumBy(v, Signed) == 0
            && Movement(v, Bank) == rec.creditAmount && GstMovement(v) == SumTax(rows)
            && Movement(v, Rounding) == rec.coveredNet - rec.creditAmount
            && Movement(v, GatewayCharges) == Charges(rows)
            && Movement(v, Clearing) == -(rec.coveredNet + Charges(rows) + SumTax(rows))
  {
    hide SumBy, Charges, SumTax;
    var drift, itc := rec.creditAmount - rec.coveredNet, SumTax(rows);
    var v := Voucher(rec, rows, intraState);
    assert TotalDebit(v) == TotalCredit(v) by {
      hide Voucher, DriftPosting, GstPostings;
      VoucherSum(rec, rows, intraState, (p: Posting) => p.debit);
      VoucherSum(rec, rows, intraState, (p: Posting) => p.credit);
      SmallSums(drift, itc, intraState, (p: Posting) => p.debit);
      SmallSums(drift, itc, intraState, (p: Posting) => p.credit);
    }
    forall a: Account
      ensures Movement(v, a) == match a
                                case Bank => rec.creditAmount
                                case Rounding => rec.coveredNet - rec.creditAmount
                                case GatewayCharges => Charges(rows)
                                case Clearing => -(rec.coveredNet + Charges(rows) + itc)
                                case InputCgst => if intraState then itc / 2 else 0
                                case InputSgst => if intraState then itc - itc / 2 else 0
                                case InputIgst => if intraState then 0 else itc
                                case _ => 0
    {
      MovementOf(rec, rows, intraState, a);
    }
    VoucherOneSided(rec, rows, intraState);
    SignedSum(v);
  }

  lemma MovementOf(rec: Reconciled, rows: seq<ReconRow>, intraState: bool, a: Account)
    ensures Movement(Voucher(rec, rows, intraState), a) == match a
              case Bank => rec.creditAmount
              case Rounding => rec.coveredNet - rec.creditAmount
              case GatewayCharges => Charges(rows)
              case Clearing => -(rec.coveredNet + Charges(rows) + SumTax(rows))
              case InputCgst => if intraState then SumTax(rows) / 2 else 0
              case InputSgst => if intraState then SumTax(rows) - SumTax(rows) / 2 else 0
              case InputIgst => if intraState then 0 else SumTax(rows)
              case _ => 0
  {
    hide SumBy, Charges, SumTax, Voucher, DriftPosting, GstPostings;
    var f := (p: Posting) => if p.account == a then p.debit - p.credit else 0;
    VoucherSum(rec, rows, intraState, f);
    SmallSums(rec.creditAmount - rec.coveredNet, SumTax(rows), intraState, f);
  }

  lemma VoucherOneSided(rec: Reconciled, rows: seq<ReconRow>, intraState: bool)
    ensures forall i :: 0 <= i < |Voucher(rec, rows, intraState)| ==> OneSided(Voucher(rec, rows, intraState)[i])
  {
    hide Charges, SumTax;
  }

  // ----- The convention detected is the one the report follows

  datatype Convention = TaxInside | TaxSeparate

  /** A payment row whose credit follows the convention. */
  predicate Follows(r: ReconRow, c: Convention) {
    && r.kind == "payment" && r.debit == 0
    && r.credit == if c == TaxInside then r.amount - r.fee else r.amount - r.fee - r.tax
  }

  lemma {:induction false} CreditSum(rows: seq<ReconRow>, c: Convention)
    requires forall i :: 0 <= i < |rows| ==> Follows(rows[i], c)
    ensures SumBy(rows, (r: ReconRow) => r.credit) ==
            SumBy(rows, (r: ReconRow) => r.amount) - SumFee(rows) - (if c == TaxInside then 0 else SumTax(rows))
    ensures SumBy(rows, (r: ReconRow) => r.Net()) == SumBy(rows, (r: ReconRow) => r.credit)
  {
    if rows != [] {
      var front := rows[..|rows| - 1];
      assert forall i :: 0 <= i < |front| ==> front[i] == rows[i];
      CreditSum(front, c);
    }
  }

  /** Whichever convention a settlement's payments follow, the voucher relieves the clearing account by
      exactly their gross amount. */
  lemma ClearingIsGross(rec: Reconciled, rows: seq<ReconRow>, intraState: bool, c: Convention)
    requires forall i :: 0 <= i < |rows| ==> Follows(rows[i], c)
    requires rec.coveredNet == SumBy(rows, (r: ReconRow) => r.Net())
    ensures Movement(Voucher(rec, rows, intraState), Clearing) == -SumBy(rows, (r: ReconRow) => r.amount)
  {
    hide SumBy, Voucher, Filter, Movement;
    var keep := (r: ReconRow) => r.kind == "payment" && (r.fee != 0 || r.tax != 0);
    var pays := FeePayments(rows);
    forall r | r in rows
      ensures !keep(r) ==> r.tax == 0
    {
      var i :| 0 <= i < |rows| && rows[i] == r;
      assert Follows(rows[i], c);
    }
    forall i | 0 <= i < |pays|
      ensures Follows(pays[i], c)
    {
      assert pays[i] in pays;
      var j :| 0 <= j < |rows| && rows[j] == pays[i];
    }
    SumByFilter(rows, keep, (r: ReconRow) => r.tax);
    SumByEmpty((r: ReconRow) => r.tax);
    CreditSum(rows, c);
    CreditSum(pays, c);
    VoucherIsBalanced(rec, rows, intraState);
  }
}
