/** The journal of a whole run and its agreement with the fee-GST extraction. */
module JournalBook {
  import opened Sequences
  import opened Journal
  import CoveredRows

  type ById = map<CoveredRows.CanonicalId, ReconRow>
  type Key = (string, string)

  // ----- Which rows a record covers

  /** Positions of the report rows with the join key, in report order. */
  function Bucket(rows: seq<ReconRow>, k: Key): (ps: seq<nat>)
    ensures forall q :: 0 <= q < |ps| ==> ps[q] < |rows| && CoveredRows.Entity(rows[ps[q]]) == k
    ensures forall q, r :: 0 <= q < r < |ps| ==> ps[q] < ps[r]
  {
    if rows == [] then []
    else
      var n := |rows| - 1;
      Bucket(rows[..n], k) + (if CoveredRows.Entity(rows[n]) == k then [n] else [])
  }

  function Occurrences(ks: seq<Key>, k: Key): nat {
    if ks == [] then 0 else Occurrences(ks[..|ks| - 1], k) + (if ks[|ks| - 1] == k then 1 else 0)
  }

  function At(rows: seq<ReconRow>, k: Key, q: nat): seq<nat> {
    if q < |Bucket(rows, k)| then [Bucket(rows, k)[q]] else []
  }

  /** The journal's fallback without row ids: each occurrence of a key consumes the next row of its bucket. */
  function Consumed(rows: seq<ReconRow>, ks: seq<Key>): (ps: seq<nat>)
    ensures forall q :: 0 <= q < |ps| ==> ps[q] < |rows|
  {
    if ks == [] then []
    else
      var front, k := ks[..|ks| - 1], ks[|ks| - 1];
      Consumed(rows, front) + At(rows, k, Occurrences(front, k))
  }

  /** The fee-GST fallback: every occurrence of a key reads the last row that carries it. */
  function LastOnes(rows: seq<ReconRow>, ks: seq<Key>): (ps: seq<nat>)
    ensures forall q :: 0 <= q < |ps| ==> ps[q] < |rows|
  {
    if ks == [] then []
    else
      var k := ks[|ks| - 1];
      LastOnes(rows, ks[..|ks| - 1]) + (if Bucket(rows, k) == [] then [] else [Bucket(rows, k)[|Bucket(rows, k)| - 1]])
  }

  predicate Strict(rec: Reconciled) {
    rec.covered.rowIds != []
  }

  /** The rows a voucher is drawn from, or why they cannot be trusted. */
  function JournalRows(rec: Reconciled, rows: seq<ReconRow>, byId: ById): CoveredRows.Resolution {
    if Strict(rec) then CoveredRows.ResolvedBy(rec.covered, byId)
    else CoveredRows.Resolved(CoveredRows.RowsAt(rows, Consumed(rows, rec.covered.entities)))
  }

  function FeeRows(rec: Reconciled, rows: seq<ReconRow>, byId: ById): CoveredRows.Resolution {
    if Strict(rec) then CoveredRows.ResolvedBy(rec.covered, byId)
    else CoveredRows.Resolved(CoveredRows.RowsAt(rows, LastOnes(rows, rec.covered.entities)))
  }

  // ----- The journal

  datatype Entry = Entry(key: int, postings: seq<Posting>)

  datatype Outcome<T> = Done(value: T) | Failed(why: CoveredRows.Error)

  function ByKey(a: Reconciled, b: Reconciled): bool { a.key <= b.key }

  /** Records are worked in order; the first that does not resolve stops the build. */
  function Entries(recs: seq<Reconciled>, rows: seq<ReconRow>, byId: ById, intraState: bool): Outcome<seq<Entry>> {
    if recs == [] then Done([])
    else
      var before, rec := Entries(recs[..|recs| - 1], rows, byId, intraState), recs[|recs| - 1];
      var found := JournalRows(rec, rows, byId);
      if before.Failed? then before
      else if found.Refused? then Failed(found.why)
      else if found.rows == [] then before
      else Done(before.value + [Entry(rec.key, Voucher(rec, found.rows, intraState))])
  }

  /** `build_journal_entries`. */
  method BuildJournal(recs: seq<Reconciled>, rows: seq<ReconRow>, byId: ById, intraState: bool)
    returns (out: Outcome<seq<Entry>>)
    ensures out == Entries(Sort(recs, ByKey), rows, byId, intraState)
  {
    hide Sort, Voucher, JournalRows;
    var sorted := Sort(recs, ByKey);
    var entries: seq<Entry> := [];
    for i := 0 to |sorted|
      invariant Entries(sorted[..i], rows, byId, intraState) == Done(entries)
    {
      var rec := sorted[i];
      assert sorted[..i + 1][..i] == sorted[..i];
      var found := JournalRows(rec, rows, byId);
      if found.Refused? {
        FailureStays(sorted, i + 1, rows, byId, intraState);
        return Failed(found.why);
      }
      if found.rows != [] {
        entries := entries + [Entry(rec.key, Voucher(rec, found.rows, intraState))];
      }
    }
    assert sorted[..|sorted|] == sorted;
    return Done(entries);
  }

  lemma {:induction false} FailureStays(recs: seq<Reconciled>, i: nat, rows: seq<ReconRow>, byId: ById,
                                        intraState: bool)
    requires i <= |recs| && Entries(recs[..i], rows, byId, intraState).Failed?
    ensures Entries(recs, rows, byId, intraState) == Entries(recs[..i], rows, byId, intraState)
    decreases |recs| - i
  {
    hide Voucher, JournalRows;
    if i == |recs| {
      assert recs[..i] == recs;
    } else {
      assert recs[..i + 1][..i] == recs[..i];
      FailureStays(recs, i + 1, rows, byId, intraState);
    }
  }

  // ----- The fee-GST extraction

  function TaxOf(found: CoveredRows.Resolution): int {
    if found.Resolved? then SumTax(found.rows) else 0
  }

  function FeeGstTotal(recs: seq<Reconciled>, rows: seq<ReconRow>, byId: ById): Outcome<int> {
    if recs == [] then Done(0)
    else
      var before, found := FeeGstTotal(recs[..|recs| - 1], rows, byId), FeeRows(recs[|recs| - 1], rows, byId);
      if before.Failed? then before
      else if found.Refused? then Failed(found.why)
      else Done(before.value + SumTax(found.rows))
  }

  /** `fee_gst`: the total and its itemisation. */
  method FeeGst(recs: seq<Reconciled>, rows: seq<ReconRow>, byId: ById)
    returns (total: Outcome<int>, byEntity: seq<(string, int)>)
    ensures total == FeeGstTotal(recs, rows, byId)
    ensures total.Done? ==> SumBy(byEntity, (e: (string, int)) => e.1) == total.value
    ensures total.Done? ==> forall e :: e in byEntity ==> e.1 != 0
  {
    hide FeeRows;
    var sum := 0;
    byEntity := [];
    for i := 0 to |recs|
      invariant FeeGstTotal(recs[..i], rows, byId) == Done(sum)
      invariant SumBy(byEntity, (e: (string, int)) => e.1) == sum && forall e :: e in byEntity ==> e.1 != 0
    {
      assert recs[..i + 1][..i] == recs[..i];
      var found := FeeRows(recs[i], rows, byId);
      if found.Refused? {
        FeeFailureStays(recs, i + 1, rows, byId);
        return Failed(found.why), byEntity;
      }
      ghost var before := sum;
      for j := 0 to |found.rows|
        invariant sum == before + SumTax(found.rows[..j])
        invariant SumBy(byEntity, (e: (string, int)) => e.1) == sum && forall e :: e in byEntity ==> e.1 != 0
      {
        var row := found.rows[j];
        SumByStep(found.rows, j, (r: ReconRow) => r.tax);
        if row.tax != 0 {
          sum := sum + row.tax;
          SumByConcat(byEntity, [(row.entityId, row.tax)], (e: (string, int)) => e.1);
          SumByOne((row.entityId, row.tax), (e: (string, int)) => e.1);
          byEntity := byEntity + [(row.entityId, row.tax)];
        }
      }
      assert found.rows[..|found.rows|] == found.rows;
    }
    assert recs[..|recs|] == recs;
    return Done(sum), byEntity;
  }

  lemma {:induction false} FeeFailureStays(recs: seq<Reconciled>, i: nat, rows: seq<ReconRow>, byId: ById)
    requires i <= |recs| && FeeGstTotal(recs[..i], rows, byId).Failed?
    ensures FeeGstTotal(recs, rows, byId) == FeeGstTotal(recs[..i], rows, byId)
    decreases |recs| - i
  {
    hide FeeRows;
    if i == |recs| {
      assert recs[..i] == recs;
    } else {
      assert recs[..i + 1][..i] == recs[..i];
      FeeFailureStays(recs, i + 1, rows, byId);
    }
  }

  // ----- The journal and the extraction agree

  /** What the journal owes to a record: its credit, when it covers rows. */
  function CreditOf(rec: Reconciled, rows: seq<ReconRow>, byId: ById): int {
    var found := JournalRows(rec, rows, byId);
    if found.Resolved? && found.rows != [] then rec.creditAmount else 0
  }

  lemma {:induction false} EntriesMovements(recs: seq<Reconciled>, rows: seq<ReconRow>, byId: ById, intraState: bool)
    requires Entries(recs, rows, byId, intraState).Done?
    ensures var es := Entries(recs, rows, byId, intraState).value;
            && (forall e :: e in es ==> Balanced(e.postings) && SumBy(e.postings, Signed) == 0)
            && SumBy(es, (e: Entry) => Movement(e.postings, Bank))
                 == SumBy(recs, (r: Reconciled) => CreditOf(r, rows, byId))
            && SumBy(es, (e: Entry) => GstMovement(e.postings))
                 == SumBy(recs, (r: Reconciled) => TaxOf(JournalRows(r, rows, byId)))
    ensures forall r :: r in recs ==> JournalRows(r, rows, byId).Resolved?
  {
    hide Voucher, JournalRows, SumTax, Balanced, Movement, GstMovement, SumBy;
    var bank, gst := (e: Entry) => Movement(e.postings, Bank), (e: Entry) => GstMovement(e.postings);
    var credit, tax := (r: Reconciled) => CreditOf(r, rows, byId), (r: Reconciled) => TaxOf(JournalRows(r, rows, byId));
    if recs == [] {
      NothingBooked(bank, gst, credit, tax);
    } else {
      var front, rec := recs[..|recs| - 1], recs[|recs| - 1];
      assert recs == front + [rec];
      EntriesMovements(front, rows, byId, intraState);
      var found, es := JournalRows(rec, rows, byId), Entries(front, rows, byId, intraState).value;
      SumByConcat(front, [rec], credit);
      SumByConcat(front, [rec], tax);
      SumByOne(rec, credit);
      SumByOne(rec, tax);
      NoRowsNoTax(found);
      if found.rows != [] {
        var e := Entry(rec.key, Voucher(rec, found.rows, intraState));
        EntryMovements(rec, found.rows, intraState, e);
        SumByConcat(es, [e], bank);
        SumByConcat(es, [e], gst);
        SumByOne(e, bank);
        SumByOne(e, gst);
      }
    }
  }

  lemma EntryMovements(rec: Reconciled, rows: seq<ReconRow>, intraState: bool, e: Entry)
    requires e.postings == Voucher(rec, rows, intraState)
    ensures Balanced(e.postings) && SumBy(e.postings, Signed) == 0
    ensures Movement(e.postings, Bank) == rec.creditAmount && GstMovement(e.postings) == SumTax(rows)
  {
    hide Voucher, SumTax, Balanced, Movement, SumBy, GstMovement;
    VoucherIsBalanced(rec, rows, intraState);
  }

  lemma NothingBooked(f: Entry -> int, g: Entry -> int, h: Reconciled -> int, k: Reconciled -> int)
    ensures SumBy([], f) == SumBy([], g) == SumBy([], h) == SumBy([], k) == 0
  {
  }

  lemma NoRowsNoTax(found: CoveredRows.Resolution)
    ensures found.Resolved? && found.rows == [] ==> SumTax(found.rows) == 0
  {
  }

  lemma {:induction false} FeeGstAsSum(recs: seq<Reconciled>, rows: seq<ReconRow>, byId: ById)
    ensures FeeGstTotal(recs, rows, byId).Done? <==> forall r :: r in recs ==> FeeRows(r, rows, byId).Resolved?
    ensures FeeGstTotal(recs, rows, byId).Done? ==>
              FeeGstTotal(recs, rows, byId).value == SumBy(recs, (r: Reconciled) => TaxOf(FeeRows(r, rows, byId)))
  {
    hide FeeRows, SumTax;
    if recs != [] {
      var front, rec := recs[..|recs| - 1], recs[|recs| - 1];
      assert recs == front + [rec];
      FeeGstAsSum(front, rows, byId);
    }
  }

  lemma {:induction false} BuildsExactlyWhen(recs: seq<Reconciled>, rows: seq<ReconRow>, byId: ById, intraState: bool)
    ensures Entries(recs, rows, byId, intraState).Done? <==>
              forall r :: r in recs ==> JournalRows(r, rows, byId).Resolved?
  {
    hide JournalRows, Voucher;
    if recs != [] {
      var front, rec := recs[..|recs| - 1], recs[|recs| - 1];
      assert recs == front + [rec];
      BuildsExactlyWhen(front, rows, byId, intraState);
    }
  }

  lemma {:induction false} LookUpCount(ids: seq<CoveredRows.CanonicalId>, entities: seq<Key>, byId: ById, pos: nat)
    requires pos <= |ids| == |entities|
    ensures var found := CoveredRows.LookUp(ids, entities, byId, pos); found.Resolved? ==> |found.rows| == |ids| - pos
    decreases |ids| - pos
  {
    if pos < |ids| {
      LookUpCount(ids, entities, byId, pos + 1);
    }
  }

  /** A record with row ids that resolves covers rows, so its whole credit is booked. */
  lemma StrictIsCredited(rec: Reconciled, rows: seq<ReconRow>, byId: ById)
    requires Strict(rec) && JournalRows(rec, rows, byId).Resolved?
    ensures CreditOf(rec, rows, byId) == rec.creditAmount
  {
    hide CoveredRows.LookUp;
    LookUpCount(rec.covered.rowIds, rec.covered.entities, byId, 0);
  }

  /** Over records with row ids, whatever order the journal works in: the journal and the fee-GST
      extraction succeed together, exactly when every record resolves; then every voucher balances, bank
      debits equal the reconciled credits, and input-GST debits equal the fee-GST total. */
  lemma JournalAgreesWithFeeGst(recs: seq<Reconciled>, rows: seq<ReconRow>, byId: ById, intraState: bool)
    requires forall r :: r in recs ==> Strict(r)
    ensures var out := Entries(Sort(recs, ByKey), rows, byId, intraState);
            && (out.Done? <==> forall r :: r in recs ==> CoveredRows.ResolvedBy(r.covered, byId).Resolved?)
            && (out.Done? <==> FeeGstTotal(recs, rows, byId).Done?)
    ensures var out := Entries(Sort(recs, ByKey), rows, byId, intraState);
            out.Done? ==>
              && (forall e :: e in out.value ==> Balanced(e.postings) && SumBy(e.postings, Signed) == 0)
              && SumBy(out.value, (e: Entry) => Movement(e.postings, Bank))
                   == SumBy(recs, (r: Reconciled) => r.creditAmount)
              && FeeGstTotal(recs, rows, byId) == Done(SumBy(out.value, (e: Entry) => GstMovement(e.postings)))
  {
    hide Sort, Voucher, SumTax, SumBy, Entries, FeeGstTotal, CreditOf, GstMovement, Movement, Balanced,
         CoveredRows.ResolvedBy, Consumed, LastOnes;
    var sorted := Sort(recs, ByKey);
    SortMembers(recs, ByKey);
    BuildsExactlyWhen(sorted, rows, byId, intraState);
    FeeGstAsSum(recs, rows, byId);
    if Entries(sorted, rows, byId, intraState).Done? {
      EntriesMovements(sorted, rows, byId, intraState);
      forall r | r in recs
        ensures CreditOf(r, rows, byId) == r.creditAmount
      {
        StrictIsCredited(r, rows, byId);
      }
      SumByMembers(sorted, recs, (r: Reconciled) => CreditOf(r, rows, byId));
      SumBySame(recs, (r: Reconciled) => CreditOf(r, rows, byId), (r: Reconciled) => r.creditAmount);
      SumByMembers(sorted, recs, (r: Reconciled) => TaxOf(JournalRows(r, rows, byId)));
      SumBySame(recs, (r: Reconciled) => TaxOf(JournalRows(r, rows, byId)),
                (r: Reconciled) => TaxOf(FeeRows(r, rows, byId)));
    }
  }

  // ----- Without row ids the two fallbacks can differ

  /** A tax of each report row, by position. */
  type Taxes = nat -> int

  /** Each covered key that the report knows is covered once and names one row. */
  ghost predicate OneRowPerKey(rows: seq<ReconRow>, ks: seq<Key>) {
    forall k :: k in ks ==> Bucket(rows, k) == [] || (|Bucket(rows, k)| == 1 && Occurrences(ks, k) == 1)
  }

  lemma {:induction false} OccurrencesPositive(ks: seq<Key>, k: Key)
    ensures Occurrences(ks, k) > 0 <==> k in ks
  {
    if ks != [] {
      OccurrencesPositive(ks[..|ks| - 1], k);
      assert ks == ks[..|ks| - 1] + [ks[|ks| - 1]];
    }
  }

  lemma {:induction false} OccurrencesGrow(ks: seq<Key>, i: nat, k: Key)
    requires i <= |ks|
    ensures Occurrences(ks[..i], k) <= Occurrences(ks, k)
    decreases |ks| - i
  {
    if i < |ks| {
      assert ks[..i + 1][..i] == ks[..i];
      OccurrencesGrow(ks, i + 1, k);
    } else {
      assert ks[..i] == ks;
    }
  }

  lemma {:induction false} UniqueKeysSameRows(rows: seq<ReconRow>, ks: seq<Key>, i: nat)
    requires i <= |ks| && OneRowPerKey(rows, ks)
    ensures Consumed(rows, ks[..i]) == LastOnes(rows, ks[..i])
  {
    hide Bucket;
    if i > 0 {
      var k := ks[i - 1];
      assert ks[..i][..i - 1] == ks[..i - 1];
      UniqueKeysSameRows(rows, ks, i - 1);
      OccurrencesGrow(ks, i, k);
      assert Occurrences(ks[..i], k) == Occurrences(ks[..i - 1], k) + 1;
      assert k in ks;
    }
  }

  /** One paise of tax on the last row of the bucket, nothing elsewhere. */
  function Marked(rows: seq<ReconRow>, k: Key): Taxes
    requires Bucket(rows, k) != []
  {
    var last := Bucket(rows, k)[|Bucket(rows, k)| - 1];
    (p: nat) => if p == last then 1 else 0
  }

  lemma BucketsApart(rows: seq<ReconRow>, k: Key, k': Key, q: nat)
    requires q < |Bucket(rows, k')| && Bucket(rows, k) != []
    ensures Marked(rows, k)(Bucket(rows, k')[q]) == if k == k' && q == |Bucket(rows, k)| - 1 then 1 else 0
  {
    var last := |Bucket(rows, k)| - 1;
    assert k == k' && q < last ==> Bucket(rows, k)[q] < Bucket(rows, k)[last];
    assert CoveredRows.Entity(rows[Bucket(rows, k)[last]]) == k;
  }

  lemma {:induction false} MarkedLastOnes(rows: seq<ReconRow>, ks: seq<Key>, k: Key)
    requires Bucket(rows, k) != []
    ensures SumBy(LastOnes(rows, ks), Marked(rows, k)) == Occurrences(ks, k)
  {
    hide Bucket, Marked;
    if ks != [] {
      var front, k' := ks[..|ks| - 1], ks[|ks| - 1];
      MarkedLastOnes(rows, front, k);
      var b := Bucket(rows, k');
      if b != [] {
        SumByConcat(LastOnes(rows, front), [b[|b| - 1]], Marked(rows, k));
        SumByOne(b[|b| - 1], Marked(rows, k));
        BucketsApart(rows, k, k', |b| - 1);
      } else {
        assert LastOnes(rows, ks) == LastOnes(rows, front);
      }
    }
  }

  lemma {:induction false} MarkedConsumed(rows: seq<ReconRow>, ks: seq<Key>, k: Key)
    requires Bucket(rows, k) != []
    ensures SumBy(Consumed(rows, ks), Marked(rows, k)) == if Occurrences(ks, k) >= |Bucket(rows, k)| then 1 else 0
  {
    hide Bucket, Marked;
    if ks != [] {
      var front, k' := ks[..|ks| - 1], ks[|ks| - 1];
      MarkedConsumed(rows, front, k);
      var b, q := Bucket(rows, k'), Occurrences(front, k');
      if q < |b| {
        SumByConcat(Consumed(rows, front), [b[q]], Marked(rows, k));
        SumByOne(b[q], Marked(rows, k));
        BucketsApart(rows, k, k', q);
      } else {
        assert Consumed(rows, ks) == Consumed(rows, front);
      }
    }
  }

  /** On the marked row the extraction never reads less than the journal, and reads more for a key that is
      covered twice or names several rows. */
  lemma MarkedReads(rows: seq<ReconRow>, ks: seq<Key>, k: Key)
    requires Bucket(rows, k) != []
    ensures SumBy(Consumed(rows, ks), Marked(rows, k)) <= SumBy(LastOnes(rows, ks), Marked(rows, k))
    ensures k in ks && !(|Bucket(rows, k)| == 1 && Occurrences(ks, k) == 1) ==>
              SumBy(Consumed(rows, ks), Marked(rows, k)) < SumBy(LastOnes(rows, ks), Marked(rows, k))
  {
    hide Bucket, Marked, Consumed, LastOnes, Occurrences, SumBy;
    OccurrencesPositive(ks, k);
    MarkedLastOnes(rows, ks, k);
    MarkedConsumed(rows, ks, k);
  }

  lemma {:induction false} SumStrictlyLess<T>(s: seq<T>, f: T -> int, g: T -> int)
    requires forall x :: x in s ==> f(x) <= g(x)
    ensures SumBy(s, f) <= SumBy(s, g)
    ensures (exists x :: x in s && f(x) < g(x)) ==> SumBy(s, f) < SumBy(s, g)
  {
    if s != [] {
      var front, last := s[..|s| - 1], s[|s| - 1];
      assert s == front + [last];
      SumStrictlyLess(front, f, g);
    }
  }

  function ConsumedTax(rows: seq<ReconRow>, t: Taxes): seq<Key> -> int {
    (ks: seq<Key>) => SumBy(Consumed(rows, ks), t)
  }

  function LastTax(rows: seq<ReconRow>, t: Taxes): seq<Key> -> int {
    (ks: seq<Key>) => SumBy(LastOnes(rows, ks), t)
  }

  /** Over any records without row ids, the two fallbacks give one total for every tax the report could
      carry, if and only if each record covers each key once and names at most one row with it. */
  lemma FallbacksAgreeExactlyWhen(rows: seq<ReconRow>, records: seq<seq<Key>>)
    ensures (forall t: Taxes :: SumBy(records, ConsumedTax(rows, t)) == SumBy(records, LastTax(rows, t)))
            <==> forall ks :: ks in records ==> OneRowPerKey(rows, ks)
  {
    hide Bucket, Marked, Consumed, LastOnes, Occurrences, SumBy;
    if forall ks :: ks in records ==> OneRowPerKey(rows, ks) {
      forall ks | ks in records
        ensures Consumed(rows, ks) == LastOnes(rows, ks)
      {
        UniqueKeysSameRows(rows, ks, |ks|);
        assert ks[..|ks|] == ks;
      }
      forall t: Taxes
        ensures SumBy(records, ConsumedTax(rows, t)) == SumBy(records, LastTax(rows, t))
      {
        SumBySame(records, ConsumedTax(rows, t), LastTax(rows, t));
      }
    } else {
      var ks :| ks in records && !OneRowPerKey(rows, ks);
      var k :| k in ks && !(Bucket(rows, k) == [] || (|Bucket(rows, k)| == 1 && Occurrences(ks, k) == 1));
      var t := Marked(rows, k);
      forall ks' | ks' in records
        ensures ConsumedTax(rows, t)(ks') <= LastTax(rows, t)(ks')
      {
        MarkedReads(rows, ks', k);
      }
      MarkedReads(rows, ks, k);
      SumStrictlyLess(records, ConsumedTax(rows, t), LastTax(rows, t));
    }
  }

  // ----- The same, of the journal and the fee-GST total themselves

  /** The report with other taxes on its rows. */
  function WithTaxes(rows: seq<ReconRow>, t: Taxes): (r: seq<ReconRow>)
    ensures |r| == |rows| && forall i :: 0 <= i < |rows| ==> r[i] == rows[i].(tax := t(i))
  {
    seq(|rows|, i requires 0 <= i < |rows| => rows[i].(tax := t(i)))
  }

  lemma {:induction false} TaxesKeepBuckets(rows: seq<ReconRow>, t: Taxes, k: Key)
    ensures Bucket(WithTaxes(rows, t), k) == Bucket(rows, k)
  {
    if rows != [] {
      var n := |rows| - 1;
      TaxesKeepBuckets(rows[..n], t, k);
      assert WithTaxes(rows, t)[..n] == WithTaxes(rows[..n], t);
    }
  }

  lemma {:induction false} TaxesKeepRows(rows: seq<ReconRow>, t: Taxes, ks: seq<Key>)
    ensures Consumed(WithTaxes(rows, t), ks) == Consumed(rows, ks)
    ensures LastOnes(WithTaxes(rows, t), ks) == LastOnes(rows, ks)
  {
    hide Bucket, Occurrences;
    if ks != [] {
      TaxesKeepRows(rows, t, ks[..|ks| - 1]);
      TaxesKeepBuckets(rows, t, ks[|ks| - 1]);
    }
  }

  lemma {:induction false} TaxAtPositions(rows: seq<ReconRow>, t: Taxes, ps: seq<nat>)
    requires CoveredRows.InReport(rows, ps)
    ensures CoveredRows.InReport(WithTaxes(rows, t), ps)
    ensures SumTax(CoveredRows.RowsAt(WithTaxes(rows, t), ps)) == SumBy(ps, t)
  {
    if ps != [] {
      var n := |ps| - 1;
      TaxAtPositions(rows, t, ps[..n]);
      var all := CoveredRows.RowsAt(WithTaxes(rows, t), ps);
      assert all[..n] == CoveredRows.RowsAt(WithTaxes(rows, t), ps[..n]);
    }
  }

  /** What the two fallbacks read of one record, in the report with the given taxes. */
  lemma FallbackTaxes(rec: Reconciled, rows: seq<ReconRow>, t: Taxes, byId: ById)
    requires !Strict(rec)
    ensures var rows' := WithTaxes(rows, t);
            && JournalRows(rec, rows', byId).Resolved? && FeeRows(rec, rows', byId).Resolved?
            && TaxOf(JournalRows(rec, rows', byId)) == ConsumedTax(rows, t)(rec.covered.entities)
            && TaxOf(FeeRows(rec, rows', byId)) == LastTax(rows, t)(rec.covered.entities)
  {
    hide Consumed, LastOnes, SumTax, SumBy;
    TaxesKeepRows(rows, t, rec.covered.entities);
    TaxAtPositions(rows, t, Consumed(rows, rec.covered.entities));
    TaxAtPositions(rows, t, LastOnes(rows, rec.covered.entities));
  }

  function EntitiesOf(recs: seq<Reconciled>): (r: seq<seq<Key>>)
    ensures |r| == |recs| && forall i :: 0 <= i < |recs| ==> r[i] == recs[i].covered.entities
  {
    seq(|recs|, i requires 0 <= i < |recs| => recs[i].covered.entities)
  }

  lemma {:induction false} SumOverEntities(recs: seq<Reconciled>, f: Reconciled -> int, g: seq<Key> -> int)
    requires forall r :: r in recs ==> f(r) == g(r.covered.entities)
    ensures SumBy(recs, f) == SumBy(EntitiesOf(recs), g)
  {
    if recs != [] {
      var n := |recs| - 1;
      assert recs[n] in recs && forall r :: r in recs[..n] ==> r in recs;
      SumOverEntities(recs[..n], f, g);
      assert EntitiesOf(recs)[..n] == EntitiesOf(recs[..n]);
    }
  }

  /** The input GST of the journal and the fee-GST total are one figure. */
  ghost predicate OneGst(recs: seq<Reconciled>, rows: seq<ReconRow>, byId: ById, intraState: bool) {
    var out, total := Entries(Sort(recs, ByKey), rows, byId, intraState), FeeGstTotal(recs, rows, byId);
    out.Done? && total.Done? && SumBy(out.value, (e: Entry) => GstMovement(e.postings)) == total.value
  }

  lemma OneGstAsSums(recs: seq<Reconciled>, rows: seq<ReconRow>, byId: ById, intraState: bool, t: Taxes)
    requires forall r :: r in recs ==> !Strict(r)
    ensures OneGst(recs, WithTaxes(rows, t), byId, intraState)
            <==> SumBy(EntitiesOf(recs), ConsumedTax(rows, t)) == SumBy(EntitiesOf(recs), LastTax(rows, t))
  {
    hide Sort, SumBy, Entries, FeeGstTotal, JournalRows, FeeRows, TaxOf, ConsumedTax, LastTax, GstMovement, Movement,
         Balanced, Strict;
    var rows', sorted := WithTaxes(rows, t), Sort(recs, ByKey);
    var paid := (r: Reconciled) => TaxOf(JournalRows(r, rows', byId));
    var read := (r: Reconciled) => TaxOf(FeeRows(r, rows', byId));
    SortMembers(recs, ByKey);
    forall r | r in recs
      ensures JournalRows(r, rows', byId).Resolved? && FeeRows(r, rows', byId).Resolved?
      ensures paid(r) == ConsumedTax(rows, t)(r.covered.entities) && read(r) == LastTax(rows, t)(r.covered.entities)
    {
      FallbackTaxes(r, rows, t, byId);
    }
    BuildsExactlyWhen(sorted, rows', byId, intraState);
    EntriesMovements(sorted, rows', byId, intraState);
    SumByMembers(sorted, recs, paid);
    FeeGstAsSum(recs, rows', byId);
    SumOverEntities(recs, paid, ConsumedTax(rows, t));
    SumOverEntities(recs, read, LastTax(rows, t));
  }

  /** Over any records without row ids, the journal's input GST equals the fee-GST total whatever the taxes
      on the report's rows, if and only if each record covers each key once and names at most one row with it. */
  lemma JournalAgreesWithoutRowIdsExactlyWhen(recs: seq<Reconciled>, rows: seq<ReconRow>, byId: ById, intraState: bool)
    requires forall r :: r in recs ==> !Strict(r)
    ensures (forall t: Taxes :: OneGst(recs, WithTaxes(rows, t), byId, intraState))
            <==> forall r :: r in recs ==> OneRowPerKey(rows, r.covered.entities)
  {
    hide OneGst, OneRowPerKey, Strict, SumBy, ConsumedTax, LastTax;
    forall t: Taxes
      ensures OneGst(recs, WithTaxes(rows, t), byId, intraState)
              <==> SumBy(EntitiesOf(recs), ConsumedTax(rows, t)) == SumBy(EntitiesOf(recs), LastTax(rows, t))
    {
      OneGstAsSums(recs, rows, byId, intraState, t);
    }
    FallbacksAgreeExactlyWhen(rows, EntitiesOf(recs));
    OnePerRecord(recs, rows);
  }

  lemma OnePerRecord(recs: seq<Reconciled>, rows: seq<ReconRow>)
    ensures (forall ks :: ks in EntitiesOf(recs) ==> OneRowPerKey(rows, ks))
            <==> forall r :: r in recs ==> OneRowPerKey(rows, r.covered.entities)
  {
    hide OneRowPerKey;
    if forall ks :: ks in EntitiesOf(recs) ==> OneRowPerKey(rows, ks) {
      forall r | r in recs
        ensures OneRowPerKey(rows, r.covered.entities)
      {
        var i :| 0 <= i < |recs| && recs[i] == r;
        assert EntitiesOf(recs)[i] in EntitiesOf(recs);
      }
    }
    if forall r :: r in recs ==> OneRowPerKey(rows, r.covered.entities) {
      forall ks | ks in EntitiesOf(recs)
        ensures OneRowPerKey(rows, ks)
      {
        var i :| 0 <= i < |recs| && EntitiesOf(recs)[i] == ks;
        assert recs[i] in recs;
      }
    }
  }

  // ----- One voucher per record

  /** The entry is the record's: its key, its credit into the bank, its covered net and charges out of clearing. */
  ghost predicate Books(e: Entry, rec: Reconciled, found: CoveredRows.Resolution) {
    && found.Resolved? && found.rows != [] && e.key == rec.key && Balanced(e.postings)
    && Movement(e.postings, Bank) == rec.creditAmount && GstMovement(e.postings) == SumTax(found.rows)
  }

  predicate CoversRows(found: CoveredRows.Resolution) {
    found.Resolved? && found.rows != []
  }

  /** The records that cover rows, each with its entry, in the order of the records. */
  lemma {:induction false} EntriesFollowRecords(recs: seq<Reconciled>, rows: seq<ReconRow>, byId: ById,
                                                intraState: bool)
    requires Entries(recs, rows, byId, intraState).Done?
    ensures var es := Entries(recs, rows, byId, intraState).value;
            var kept := Filter(recs, (r: Reconciled) => CoversRows(JournalRows(r, rows, byId)));
            |es| == |kept| && forall i :: 0 <= i < |es| ==> Books(es[i], kept[i], JournalRows(kept[i], rows, byId))
  {
    hide JournalRows, Filter, Books, Voucher;
    var keep := (r: Reconciled) => CoversRows(JournalRows(r, rows, byId));
    if recs == [] {
      FilterUnfold(recs, keep);
    } else {
      var n := |recs| - 1;
      var front, rec := recs[..n], recs[n];
      EntriesFollowRecords(front, rows, byId, intraState);
      FilterStep(recs, n, keep);
      assert recs[..n + 1] == recs;
      var found := JournalRows(rec, rows, byId);
      if CoversRows(found) {
        BooksVoucher(rec, found, intraState);
      }
    }
  }

  lemma BooksVoucher(rec: Reconciled, found: CoveredRows.Resolution, intraState: bool)
    requires found.Resolved? && found.rows != []
    ensures Books(Entry(rec.key, Voucher(rec, found.rows, intraState)), rec, found)
  {
    EntryMovements(rec, found.rows, intraState, Entry(rec.key, Voucher(rec, found.rows, intraState)));
  }
}
