/** The proof-packet CSV and a reader that follows section 2 of RFC 4180, with LF record ends. */
module ProofCsv {
  import opened Options

  // ----- Writer

  predicate Risky(c: char) {
    c == '=' || c == '+' || c == '-' || c == '@' || c == '\t' || c == '\r' || c == '\n'
  }

  predicate NeedsGuard(s: string) { s != "" && Risky(s[0]) }

  /** The spreadsheet guard: a leading quote before anything that could start a formula. */
  function Guard(s: string): string {
    if NeedsGuard(s) then "'" + s else s
  }

  predicate Special(c: char) { c == ',' || c == '"' || c == '\n' || c == '\r' }

  predicate Plain(s: string) {
    forall i :: 0 <= i < |s| ==> !Special(s[i])
  }

  /** Every quote doubled. */
  function Doubled(s: string): string {
    if s == "" then "" else (if s[0] == '"' then "\"\"" else [s[0]]) + Doubled(s[1..])
  }

  function Quoted(s: string): string {
    if Plain(s) then s else "\"" + Doubled(s) + "\""
  }

  /** `_csv_field`. */
  function Field(s: string): string {
    Quoted(Guard(s))
  }

  function Joined(fields: seq<string>): string {
    if fields == [] then ""
    else if |fields| == 1 then fields[0]
    else fields[0] + "," + Joined(fields[1..])
  }

  function Fields(row: seq<string>): (r: seq<string>)
    ensures |r| == |row| && forall i :: 0 <= i < |row| ==> r[i] == Field(row[i])
  {
    seq(|row|, i requires 0 <= i < |row| => Field(row[i]))
  }

  function Guarded(row: seq<string>): (r: seq<string>)
    ensures |r| == |row| && forall i :: 0 <= i < |row| ==> r[i] == Guard(row[i])
  {
    seq(|row|, i requires 0 <= i < |row| => Guard(row[i]))
  }

  /** Each record ended by a line feed. */
  function Lines(records: seq<seq<string>>): string {
    if records == [] then "" else Joined(records[0]) + "\n" + Lines(records[1..])
  }

  function Printed(header: seq<string>, rows: seq<seq<string>>): seq<seq<string>> {
    if rows == [] then [header] else Printed(header, rows[..|rows| - 1]) + [Fields(rows[|rows| - 1])]
  }

  /** `proof_packets_to_csv`: the header as it is, then one record per packet. */
  method PacketsToCsv(header: seq<string>, rows: seq<seq<string>>) returns (text: string)
    ensures text == Lines(Printed(header, rows))
  {
    hide Field;
    var records := [header];
    for i := 0 to |rows|
      invariant records == Printed(header, rows[..i])
    {
      assert rows[..i + 1][..i] == rows[..i];
      records := records + [Fields(rows[i])];
    }
    assert rows[..|rows|] == rows;
    text := "";
    var n := |records|;
    while n > 0
      invariant 0 <= n <= |records| && text == Lines(records[n..])
    {
      n := n - 1;
      assert records[n..][0] == records[n] && records[n..][1..] == records[n + 1..];
      text := Joined(records[n]) + "\n" + text;
    }
    assert records[0..] == records;
  }

  // ----- Reader

  /** The characters up to the closing quote, with doubled quotes undone, and what follows. */
  function ReadQuoted(s: string): Option<(string, string)> {
    if s == "" then None
    else if s[0] != '"' then
      var r := ReadQuoted(s[1..]);
      if r.None? then None else Some(([s[0]] + r.value.0, r.value.1))
    else if |s| > 1 && s[1] == '"' then
      var r := ReadQuoted(s[2..]);
      if r.None? then None else Some((['"'] + r.value.0, r.value.1))
    else Some(("", s[1..]))
  }

  function ReadBare(s: string): (string, string) {
    if s == "" || Special(s[0]) then ("", s) else ([s[0]] + ReadBare(s[1..]).0, ReadBare(s[1..]).1)
  }

  function ReadField(s: string): Option<(string, string)> {
    if s != "" && s[0] == '"' then ReadQuoted(s[1..]) else Some(ReadBare(s))
  }

  lemma {:induction false} QuotedShrinks(s: string)
    ensures ReadQuoted(s).Some? ==> |ReadQuoted(s).value.1| < |s|
  {
    if s != "" {
      if s[0] != '"' {
        QuotedShrinks(s[1..]);
      } else if |s| > 1 && s[1] == '"' {
        QuotedShrinks(s[2..]);
      }
    }
  }

  lemma {:induction false} BareShrinks(s: string)
    ensures |ReadBare(s).1| <= |s|
  {
    if s != "" && !Special(s[0]) {
      BareShrinks(s[1..]);
    }
  }

  lemma FieldShrinks(s: string)
    ensures ReadField(s).Some? ==> |ReadField(s).value.1| <= |s|
  {
    if s != "" {
      QuotedShrinks(s[1..]);
    }
    BareShrinks(s);
  }

  /** One record: fields between commas, ended by a line feed. Anything else is malformed. */
  function ReadRecord(s: string): Option<(seq<string>, string)>
    decreases |s|
  {
    FieldShrinks(s);
    var f := ReadField(s);
    if f.None? || f.value.1 == "" then None
    else
      var c, rest := f.value.1[0], f.value.1[1..];
      if c == '\n' then Some(([f.value.0], rest))
      else if c == ',' then
        var more := ReadRecord(rest);
        if more.None? then None else Some(([f.value.0] + more.value.0, more.value.1))
      else None
  }

  lemma {:induction false} RecordShrinks(s: string)
    ensures ReadRecord(s).Some? ==> |ReadRecord(s).value.1| < |s|
    decreases |s|
  {
    FieldShrinks(s);
    var f := ReadField(s);
    if f.Some? && f.value.1 != "" && f.value.1[0] == ',' {
      RecordShrinks(f.value.1[1..]);
    }
  }

  function ReadAll(s: string): Option<seq<seq<string>>>
    decreases |s|
  {
    RecordShrinks(s);
    if s == "" then Some([])
    else
      var r := ReadRecord(s);
      if r.None? then None
      else
        var more := ReadAll(r.value.1);
        if more.None? then None else Some([r.value.0] + more.value)
  }

  // ----- Round trip

  /** A delimiter, or nothing, follows a field. */
  predicate Delimited(rest: string) {
    rest != "" && (rest[0] == ',' || rest[0] == '\n')
  }

  lemma {:induction false} BareRoundTrip(s: string, rest: string)
    requires Plain(s) && Delimited(rest)
    ensures ReadBare(s + rest) == (s, rest)
  {
    if s == "" {
      assert s + rest == rest;
    } else {
      assert (s + rest)[0] == s[0] && (s + rest)[1..] == s[1..] + rest;
      BareRoundTrip(s[1..], rest);
      assert [s[0]] + s[1..] == s;
    }
  }

  lemma DoubledUnfold(s: string, tail: string)
    requires s != ""
    ensures s[0] == '"' ==> Doubled(s) + tail == "\"\"" + (Doubled(s[1..]) + tail)
    ensures s[0] != '"' ==> Doubled(s) + tail == [s[0]] + (Doubled(s[1..]) + tail)
  {
    var first := if s[0] == '"' then "\"\"" else [s[0]];
    assert Doubled(s) == first + Doubled(s[1..]);
    hide Doubled;
    Regroup(first, Doubled(s[1..]), tail);
  }

  lemma Regroup(a: string, b: string, c: string)
    ensures (a + b) + c == a + (b + c)
  {
  }

  lemma ReadDouble(t: string)
    ensures ReadQuoted(t).Some? ==>
              ReadQuoted("\"\"" + t) == Some((['"'] + ReadQuoted(t).value.0, ReadQuoted(t).value.1))
  {
    assert ("\"\"" + t)[2..] == t;
  }

  lemma ReadOther(c: char, t: string)
    requires c != '"'
    ensures ReadQuoted(t).Some? ==> ReadQuoted([c] + t) == Some(([c] + ReadQuoted(t).value.0, ReadQuoted(t).value.1))
  {
    assert ([c] + t)[1..] == t;
  }

  lemma ReadClose(rest: string)
    requires Delimited(rest)
    ensures Doubled("") + ("\"" + rest) == "\"" + rest && ReadQuoted("\"" + rest) == Some(("", rest))
  {
    assert ("\"" + rest)[1..] == rest && ("\"" + rest)[1] == rest[0];
  }

  lemma {:induction false} QuotedRoundTrip(s: string, rest: string)
    requires Delimited(rest)
    ensures ReadQuoted(Doubled(s) + ("\"" + rest)) == Some((s, rest))
  {
    hide ReadQuoted, Doubled;
    var tail := "\"" + rest;
    if s == "" {
      ReadClose(rest);
    } else {
      QuotedRoundTrip(s[1..], rest);
      DoubledUnfold(s, tail);
      assert [s[0]] + s[1..] == s;
      if s[0] == '"' {
        ReadDouble(Doubled(s[1..]) + tail);
      } else {
        ReadOther(s[0], Doubled(s[1..]) + tail);
      }
    }
  }

  lemma FieldRoundTrip(s: string, rest: string)
    requires Delimited(rest)
    ensures ReadField(Field(s) + rest) == Some((Guard(s), rest))
  {
    hide ReadQuoted, ReadBare, Doubled;
    var g := Guard(s);
    if Plain(g) {
      BareRoundTrip(g, rest);
      assert g != "" ==> (g + rest)[0] == g[0] && !Special(g[0]);
      assert g == "" ==> g + rest == rest;
    } else {
      QuotedRoundTrip(g, rest);
      var text := "\"" + Doubled(g) + "\"" + rest;
      assert text[1..] == Doubled(g) + ("\"" + rest);
    }
  }

  lemma {:induction false} RecordRoundTrip(row: seq<string>, rest: string)
    requires row != []
    ensures ReadRecord(Joined(Fields(row)) + "\n" + rest) == Some((Guarded(row), rest))
  {
    hide Field, ReadField, Guard;
    var fs := Fields(row);
    var text := Joined(fs) + "\n" + rest;
    if |row| == 1 {
      var after := "\n" + rest;
      assert text == Field(row[0]) + after && after[1..] == rest;
      FieldRoundTrip(row[0], after);
      assert Guarded(row) == [Guard(row[0])];
    } else {
      var inner := Joined(Fields(row[1..])) + "\n" + rest;
      var after := "," + inner;
      assert fs[1..] == Fields(row[1..]);
      assert text == Field(row[0]) + after && after[1..] == inner;
      FieldRoundTrip(row[0], after);
      RecordRoundTrip(row[1..], rest);
      assert Guarded(row) == [Guard(row[0])] + Guarded(row[1..]);
    }
  }

  function PrintedRows(rows: seq<seq<string>>): (r: seq<seq<string>>)
    ensures |r| == |rows| && forall i :: 0 <= i < |rows| ==> r[i] == Fields(rows[i])
  {
    seq(|rows|, i requires 0 <= i < |rows| => Fields(rows[i]))
  }

  function GuardedRows(rows: seq<seq<string>>): (r: seq<seq<string>>)
    ensures |r| == |rows| && forall i :: 0 <= i < |rows| ==> r[i] == Guarded(rows[i])
  {
    seq(|rows|, i requires 0 <= i < |rows| => Guarded(rows[i]))
  }

  lemma {:induction false} FileRoundTrip(rows: seq<seq<string>>)
    requires forall i :: 0 <= i < |rows| ==> rows[i] != []
    ensures ReadAll(Lines(PrintedRows(rows))) == Some(GuardedRows(rows))
  {
    hide ReadRecord, Joined, Fields, Guarded;
    if rows != [] {
      var rest := rows[1..];
      FileRoundTrip(rest);
      assert PrintedRows(rows)[1..] == PrintedRows(rest);
      var text := Joined(Fields(rows[0])) + "\n" + Lines(PrintedRows(rest));
      assert Lines(PrintedRows(rows)) == text;
      RecordRoundTrip(rows[0], Lines(PrintedRows(rest)));
      assert |text| > 0;
      assert GuardedRows(rows) == [Guarded(rows[0])] + GuardedRows(rest);
    }
  }

  /** A header name is written as it is read: nothing to guard and nothing to quote. */
  predicate BareName(s: string) {
    Plain(s) && !NeedsGuard(s)
  }

  lemma {:induction false} PrintedAsRows(header: seq<string>, rows: seq<seq<string>>)
    requires forall i :: 0 <= i < |header| ==> BareName(header[i])
    ensures Printed(header, rows) == PrintedRows([header] + rows)
  {
    if rows == [] {
      assert Fields(header) == header;
      assert [header] + rows == [header];
    } else {
      var n := |rows| - 1;
      PrintedAsRows(header, rows[..n]);
      assert ([header] + rows) == ([header] + rows[..n]) + [rows[n]];
      assert PrintedRows([header] + rows) == PrintedRows([header] + rows[..n]) + [Fields(rows[n])];
    }
  }

  /** For all field contents, the reader recovers the header and every field written, up to the guard,
      with the same records and the same fields in each. */
  lemma CsvRoundTrip(header: seq<string>, rows: seq<seq<string>>)
    requires header != [] && forall i :: 0 <= i < |header| ==> BareName(header[i])
    requires forall i :: 0 <= i < |rows| ==> rows[i] != []
    ensures ReadAll(Lines(Printed(header, rows))) == Some([header] + GuardedRows(rows))
  {
    hide ReadAll, Lines, Printed;
    var all := [header] + rows;
    PrintedAsRows(header, rows);
    assert forall i :: 0 <= i < |all| ==> all[i] != [];
    FileRoundTrip(all);
    assert Guarded(header) == header;
    assert GuardedRows(all) == [header] + GuardedRows(rows);
  }

  // ----- The guard

  /** No field, as a spreadsheet sees it, starts a formula. */
  lemma GuardNeutralises(s: string)
    ensures !NeedsGuard(Guard(s))
  {
  }

  /** Two different contents read back alike exactly when one is the other with the guard already on it. */
  lemma GuardCollidesExactlyWhen(s: string, t: string)
    requires s != t
    ensures Guard(s) == Guard(t) <==> (NeedsGuard(s) && t == "'" + s) || (NeedsGuard(t) && s == "'" + t)
  {
    SameQuoted(s, t);
  }

  lemma SameQuoted(s: string, t: string)
    ensures "'" + s == "'" + t <==> s == t
  {
    assert ("'" + s)[1..] == s && ("'" + t)[1..] == t;
  }

  const COLUMNS: seq<string> := [
    "line_key", "value_date", "amount_inr", "narration", "bank_ref", "rail", "tier", "confidence", "tie_signals",
    "reconciled", "covered_entity_count", "residual_paise", "balanced", "fee_gst_recoverable_inr"]

  lemma LineColumnsAreBare()
    ensures BareName("line_key") && BareName("value_date") && BareName("amount_inr") && BareName("narration")
    ensures BareName("bank_ref")
    ensures BareName("rail") && BareName("tier")
  {
  }

  lemma ProofColumnsAreBare()
    ensures BareName("confidence") && BareName("tie_signals") && BareName("reconciled")
    ensures BareName("covered_entity_count")
    ensures BareName("residual_paise") && BareName("balanced") && BareName("fee_gst_recoverable_inr")
  {
  }

  /** The shipped header satisfies the round trip's condition. */
  lemma ShippedCsvRoundTrip(rows: seq<seq<string>>)
    requires forall i :: 0 <= i < |rows| ==> |rows[i]| == |COLUMNS|
    ensures ReadAll(Lines(Printed(COLUMNS, rows))) == Some([COLUMNS] + GuardedRows(rows))
  {
    hide BareName, ReadAll, Lines, Printed;
    LineColumnsAreBare();
    ProofColumnsAreBare();
    CsvRoundTrip(COLUMNS, rows);
  }
}
