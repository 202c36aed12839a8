/**
 * The CSV form of the audit report (routes/audit.ts) and a reader for it after section 2 of
 * RFC 4180, with LF as the record end.
 */
module Csv {
  import opened Common
  import opened Strings

  type Row = seq<string>

  // ---- The printer ----

  function DoubleQuotes(s: string): string {
    if s == "" then ""
    else (if s[0] == '"' then "\"\"" else [s[0]]) + DoubleQuotes(s[1..])
  }

  function PrintField(str: string): string {
    if ',' in str || '"' in str || '\n' in str then "\"" + DoubleQuotes(str) + "\"" else str
  }

  function PrintFields(row: Row): seq<string> {
    if row == [] then [] else [PrintField(row[0])] + PrintFields(row[1..])
  }

  function PrintRow(row: Row): string {
    Join(PrintFields(row), ",")
  }

  function PrintRows(rows: seq<Row>): seq<string> {
    if rows == [] then [] else [PrintRow(rows[0])] + PrintRows(rows[1..])
  }

  /** The header line and the data lines, joined by LF with none at the end. */
  function Print(table: seq<Row>): string {
    Join(PrintRows(table), "\n")
  }

  // ---- The reader ----

  /** After the opening quote: the content up to the closing quote, and what follows it. */
  function ReadQuoted(s: string): Option<(string, string)> {
    if s == "" then None
    else if s[0] != '"' then Prepend(s[0], ReadQuoted(s[1..]))
    else if |s| > 1 && s[1] == '"' then Prepend('"', ReadQuoted(s[2..]))
    else Some(("", s[1..]))
  }

  function Prepend(c: char, r: Option<(string, string)>): Option<(string, string)> {
    if r.None? then None else Some(([c] + r.value.0, r.value.1))
  }

  /** Unquoted text ends at a comma, a line feed or a quote. */
  function ReadPlain(s: string): (string, string) {
    if s == "" || s[0] == ',' || s[0] == '\n' || s[0] == '"' then ("", s)
    else var r := ReadPlain(s[1..]); ([s[0]] + r.0, r.1)
  }

  predicate AtFieldEnd(s: string) {
    s == "" || s[0] == ',' || s[0] == '\n'
  }

  predicate AtRecordEnd(s: string) {
    s == "" || s[0] == '\n'
  }

  function ReadField(s: string): (r: Option<(string, string)>)
    ensures r.Some? ==> AtFieldEnd(r.value.1) && |r.value.1| <= |s|
  {
    ReadLengths(s);
    var r := if s != "" && s[0] == '"' then ReadQuoted(s[1..]) else Some(ReadPlain(s));
    if s != "" && s[0] == '"' then
      ReadLengths(s[1..]);
      if r.Some? && AtFieldEnd(r.value.1) then r else None
    else if AtFieldEnd(r.value.1) then r else None
  }

  lemma {:induction false} ReadLengths(s: string)
    ensures ReadQuoted(s).Some? ==> |ReadQuoted(s).value.1| <= |s|
    ensures |ReadPlain(s).1| <= |s|
    decreases |s|
  {
    if s != "" {
      ReadLengths(s[1..]);
      if |s| > 1 {
        ReadLengths(s[2..]);
      }
    }
  }

  function ReadRecord(s: string): (r: Option<(Row, string)>)
    ensures r.Some? ==> |r.value.0| > 0 && AtRecordEnd(r.value.1) && |r.value.1| <= |s|
    decreases |s|
  {
    var f := ReadField(s);
    if f.None? then None
    else
      var (field, rest) := f.value;
      if AtRecordEnd(rest) then Some(([field], rest))
      else
        var more := ReadRecord(rest[1..]);
        if more.None? then None else Some(([field] + more.value.0, more.value.1))
  }

  /** Records up to the end of the text; a line feed at the very end closes the last record. */
  function Read(s: string): (r: Option<seq<Row>>)
    ensures r.Some? ==> |r.value| > 0 && forall row :: row in r.value ==> row != []
    decreases |s|
  {
    var first := ReadRecord(s);
    if first.None? then None
    else
      var (record, rest) := first.value;
      if |rest| <= 1 then Some([record])
      else
        var more := Read(rest[1..]);
        if more.None? then None else Some([record] + more.value)
  }

  // ---- Reading back ----

  lemma {:induction false} QuotedReadsBack(f: string, rest: string)
    requires rest == "" || rest[0] != '"'
    ensures ReadQuoted(DoubleQuotes(f) + "\"" + rest) == Some((f, rest))
  {
    var s := DoubleQuotes(f) + "\"" + rest;
    if f == "" {
      assert s == "\"" + rest;
      assert s[1..] == rest;
    } else {
      QuotedReadsBack(f[1..], rest);
      var tail := DoubleQuotes(f[1..]) + "\"" + rest;
      if f[0] == '"' {
        assert s == "\"\"" + tail;
        assert s[2..] == tail;
      } else {
        assert s == [f[0]] + tail;
        assert s[1..] == tail;
      }
      assert [f[0]] + f[1..] == f;
    }
  }

  lemma {:induction false} PlainReadsBack(f: string, rest: string)
    requires ',' !in f && '"' !in f && '\n' !in f && AtFieldEnd(rest)
    ensures ReadPlain(f + rest) == (f, rest)
  {
    if f == "" {
      assert f + rest == rest;
    } else {
      assert f[0] in f && forall c :: c in f[1..] ==> c in f;
      PlainReadsBack(f[1..], rest);
      assert (f + rest)[0] == f[0] && (f + rest)[1..] == f[1..] + rest;
      assert [f[0]] + f[1..] == f;
    }
  }

  lemma FieldReadsBack(f: string, rest: string)
    requires AtFieldEnd(rest)
    ensures ReadField(PrintField(f) + rest) == Some((f, rest))
  {
    if ',' in f || '"' in f || '\n' in f {
      var quoted := DoubleQuotes(f) + "\"" + rest;
      QuotedReadsBack(f, rest);
      assert PrintField(f) + rest == "\"" + quoted;
      assert ("\"" + quoted)[1..] == quoted;
    } else {
      PlainReadsBack(f, rest);
      assert f != "" ==> (f + rest)[0] == f[0] && f[0] in f;
      assert f == "" ==> f + rest == rest;
    }
  }

  lemma PrintRowCons(row: Row)
    requires row != []
    ensures PrintRow(row) == PrintField(row[0]) + if |row| == 1 then "" else "," + PrintRow(row[1..])
  {
    var first := PrintField(row[0]);
    if |row| == 1 {
      assert PrintFields(row) == [first];
      assert first + "" == first;
    } else {
      assert PrintFields(row)[1..] == PrintFields(row[1..]);
      assert first + "," + PrintRow(row[1..]) == first + ("," + PrintRow(row[1..]));
    }
  }

  lemma MoreFieldsReadBack(field: string, tail: string, more: Row, rest: string)
    requires ReadRecord(tail + rest) == Some((more, rest))
    ensures ReadRecord(PrintField(field) + ("," + tail) + rest) == Some(([field] + more, rest))
  {
    var following := "," + (tail + rest);
    assert PrintField(field) + ("," + tail) + rest == PrintField(field) + following;
    FieldReadsBack(field, following);
    assert following[1..] == tail + rest;
  }

  lemma LastFieldReadsBack(field: string, rest: string)
    requires AtRecordEnd(rest)
    ensures ReadRecord(PrintField(field) + "" + rest) == Some(([field], rest))
  {
    FieldReadsBack(field, rest);
    assert PrintField(field) + "" == PrintField(field);
  }

  lemma {:induction false} RecordReadsBack(row: Row, rest: string)
    requires row != [] && AtRecordEnd(rest)
    ensures ReadRecord(PrintRow(row) + rest) == Some((row, rest))
  {
    PrintRowCons(row);
    if |row| == 1 {
      LastFieldReadsBack(row[0], rest);
      assert row == [row[0]];
    } else {
      RecordReadsBack(row[1..], rest);
      MoreFieldsReadBack(row[0], PrintRow(row[1..]), row[1..], rest);
      assert row == [row[0]] + row[1..];
    }
  }

  lemma PrintRowEmpty(row: Row)
    requires row != []
    ensures PrintRow(row) == "" <==> row == [""]
  {
    PrintRowCons(row);
    if |row| == 1 {
      assert row == [row[0]];
    }
  }

  lemma PrintCons(table: seq<Row>)
    requires |table| > 1
    ensures Print(table) == PrintRow(table[0]) + ("\n" + Print(table[1..]))
  {
    assert PrintRows(table)[1..] == PrintRows(table[1..]);
    assert PrintRow(table[0]) + "\n" + Print(table[1..]) == PrintRow(table[0]) + ("\n" + Print(table[1..]));
  }

  predicate NoEmptyRow(table: seq<Row>) {
    forall row :: row in table ==> row != []
  }

  /** A last line that is a single empty field is the empty text after the last LF. */
  predicate EndsInBlank(table: seq<Row>) {
    |table| > 1 && table[|table| - 1] == [""]
  }

  lemma PrintSingle(row: Row)
    ensures Print([row]) == PrintRow(row)
  {
    assert PrintRows([row]) == [PrintRow(row)];
  }

  lemma PrintEmpty(table: seq<Row>)
    requires table != [] && NoEmptyRow(table)
    ensures Print(table) == "" <==> table == [[""]]
  {
    if |table| == 1 {
      assert table == [table[0]] && table[0] in table;
      PrintSingle(table[0]);
      PrintRowEmpty(table[0]);
    } else {
      PrintCons(table);
    }
  }

  lemma ConsReadsBack(first: Row, rest: seq<Row>)
    requires first != [] && rest != []
    ensures Read(Print([first] + rest)) ==
            if Print(rest) == "" then Some([first])
            else if Read(Print(rest)).None? then None
            else Some([first] + Read(Print(rest)).value)
  {
    var table := [first] + rest;
    assert table[1..] == rest;
    PrintCons(table);
    RecordReadsBack(first, "\n" + Print(rest));
    assert ("\n" + Print(rest))[1..] == Print(rest);
  }

  lemma {:induction false} TableReadsBack(table: seq<Row>)
    requires table != [] && NoEmptyRow(table)
    ensures Read(Print(table)) == Some(if EndsInBlank(table) then table[..|table| - 1] else table)
  {
    assert table[0] in table;
    if |table| == 1 {
      SingleReadsBack(table[0]);
      assert table == [table[0]];
    } else {
      var first, rest := table[0], table[1..];
      assert table == [first] + rest && forall row :: row in rest ==> row in table;
      TableReadsBack(rest);
      MoreRowsReadBack(first, rest);
    }
  }

  lemma SingleReadsBack(row: Row)
    requires row != []
    ensures Read(Print([row])) == Some([row])
  {
    RecordReadsBack(row, "");
    PrintSingle(row);
    assert PrintRow(row) + "" == PrintRow(row);
  }

  lemma MoreRowsReadBack(first: Row, rest: seq<Row>)
    requires first != [] && rest != [] && NoEmptyRow(rest)
    requires Read(Print(rest)) == Some(if EndsInBlank(rest) then rest[..|rest| - 1] else rest)
    ensures var table := [first] + rest;
            Read(Print(table)) == Some(if EndsInBlank(table) then table[..|table| - 1] else table)
  {
    var table := [first] + rest;
    PrintEmpty(rest);
    ConsReadsBack(first, rest);
    assert table[|table| - 1] == rest[|rest| - 1];
    assert table[..|table| - 1] == [first] + rest[..|rest| - 1];
    if |rest| == 1 {
      assert rest == [rest[0]];
    }
  }

  /**
   * The round trip: reading the printed report gives back exactly the fields it was printed
   * from, precisely for the tables with at least one row, no row without fields, and no
   * one-column blank row at the end.
   */
  lemma RoundTrip(table: seq<Row>)
    ensures Read(Print(table)) == Some(table) <==> table != [] && NoEmptyRow(table) && !EndsInBlank(table)
  {
    if table != [] && NoEmptyRow(table) {
      TableReadsBack(table);
      if EndsInBlank(table) {
        assert |table[..|table| - 1]| != |table|;
      }
    }
  }

  // ---- The audit report ----

  /** The keys of a report row, in order. */
  const RECEIPT_HEADERS: Row := ["timestamp", "receiptId", "receiptHash", "chainPrev", "agentPubkey"]
  const CALL_HEADERS: Row := ["toolName", "description", "riskTier", "policyDecision"]
  const APPROVAL_HEADERS: Row := ["approvalStatus", "approver", "approvalDecision", "approvalWaitMs"]
  const OUTCOME_HEADERS: Row := ["executionStatus", "executionExitCode", "signatureValid"]

  /** The 16 columns of the report, in order. */
  const HEADERS: Row := RECEIPT_HEADERS + CALL_HEADERS + APPROVAL_HEADERS + OUTCOME_HEADERS

  /** A null cell prints as the empty field. */
  function CellText(cell: Option<string>): string {
    if cell.None? then "" else cell.value
  }

  function RowText(cells: seq<Option<string>>): (row: Row)
    ensures |row| == |cells|
    ensures forall i :: 0 <= i < |cells| ==> row[i] == CellText(cells[i])
  {
    if cells == [] then [] else [CellText(cells[0])] + RowText(cells[1..])
  }

  function TableText(rows: seq<seq<Option<string>>>): (table: seq<Row>)
    ensures |table| == |rows|
    ensures forall i :: 0 <= i < |rows| ==> table[i] == RowText(rows[i])
  {
    if rows == [] then [] else [RowText(rows[0])] + TableText(rows[1..])
  }

  /** The header line is taken from the first row and is printed without quoting. */
  function Report(rows: seq<seq<Option<string>>>): string {
    var headers := if rows == [] then [] else HEADERS;
    Join([Join(headers, ",")] + PrintRows(TableText(rows)), "\n")
  }

  predicate Plain(str: string) {
    forall i :: 0 <= i < |str| ==> str[i] != ',' && str[i] != '"' && str[i] != '\n'
  }

  lemma {:induction false} PlainFieldsPrintAsThemselves(row: Row)
    requires forall f :: f in row ==> Plain(f)
    ensures PrintFields(row) == row
  {
    if row != [] {
      assert row[0] in row && Plain(row[0]);
      PlainFieldsPrintAsThemselves(row[1..]);
      assert row == [row[0]] + row[1..];
    }
  }

  lemma HeaderLinePrints(headers: Row, table: seq<Row>)
    requires forall f :: f in headers ==> Plain(f)
    requires |headers| >= 2 && forall row :: row in table ==> |row| >= 2
    ensures Read(Join([Join(headers, ",")] + PrintRows(table), "\n")) == Some([headers] + table)
  {
    var all := [headers] + table;
    PlainFieldsPrintAsThemselves(headers);
    assert all[1..] == table;
    assert PrintRows(all) == [PrintRow(headers)] + PrintRows(table);
    assert all[|all| - 1] in all;
    RoundTrip(all);
  }

  /** The columns of a report, in order. */
  lemma ReportColumns()
    ensures HEADERS == ["timestamp", "receiptId", "receiptHash", "chainPrev", "agentPubkey",
                        "toolName", "description", "riskTier", "policyDecision",
                        "approvalStatus", "approver", "approvalDecision", "approvalWaitMs",
                        "executionStatus", "executionExitCode", "signatureValid"]
  {
  }

  lemma GroupsArePlain()
    ensures forall f :: f in RECEIPT_HEADERS ==> Plain(f)
    ensures forall f :: f in OUTCOME_HEADERS ==> Plain(f)
  {
  }

  lemma MoreGroupsArePlain()
    ensures forall f :: f in CALL_HEADERS ==> Plain(f)
    ensures forall f :: f in APPROVAL_HEADERS ==> Plain(f)
  {
  }

  lemma HeadersArePlain()
    ensures |HEADERS| == 16 && forall f :: f in HEADERS ==> Plain(f)
  {
    GroupsArePlain();
    MoreGroupsArePlain();
  }

  /** A cell with a value stands for it, and one without for an empty field. */
  lemma CellsOfTable(rows: seq<seq<Option<string>>>, i: nat, j: nat)
    requires i < |rows| && j < |rows[i]|
    ensures |TableText(rows)| == |rows| && |TableText(rows)[i]| == |rows[i]|
    ensures rows[i][j].Some? ==> TableText(rows)[i][j] == rows[i][j].value
    ensures rows[i][j].None? ==> TableText(rows)[i][j] == ""
  {
    assert RowText(rows[i])[j] == CellText(rows[i][j]);
  }

  /** Every exported report with at least one receipt reads back as its header and its cells. */
  lemma ReportReadsBack(rows: seq<seq<Option<string>>>)
    requires forall row :: row in rows ==> |row| == |HEADERS|
    ensures rows != [] ==> Read(Report(rows)) == Some([HEADERS] + TableText(rows))
    ensures rows == [] ==> Report(rows) == ""
  {
    if rows != [] {
      HeadersArePlain();
      forall row | row in TableText(rows)
        ensures |row| >= 2
      {
        var i :| 0 <= i < |rows| && TableText(rows)[i] == row;
        assert rows[i] in rows;
      }
      HeaderLinePrints(HEADERS, TableText(rows));
    }
  }
}
