/** Exporting transactions as CSV (`generateTransactionsCsv`, `escapeCsvValue`) and reading them as RFC 4180 says. */
module Csv {
  import opened Options

  const QUOTE: char := '\"'
  const CRLF := "\r\n"

  predicate NeedsQuotes(value: string) {
    exists i :: 0 <= i < |value| && value[i] in "\",\r\n"
  }

  function DoubleQuotes(value: string): string {
    if value == "" then ""
    else (if value[0] == QUOTE then [QUOTE, QUOTE] else [value[0]]) + DoubleQuotes(value[1..])
  }

  function EscapeCsvValue(value: string): string {
    if NeedsQuotes(value) then [QUOTE] + DoubleQuotes(value) + [QUOTE] else value
  }

  // The fields of a row between commas.
  function Line(row: seq<string>): string {
    if row == [] then ""
    else if |row| == 1 then EscapeCsvValue(row[0])
    else EscapeCsvValue(row[0]) + "," + Line(row[1..])
  }

  // Every line ends with CR LF, the last one too.
  function Print(rows: seq<seq<string>>): string {
    if rows == [] then "" else Line(rows[0]) + CRLF + Print(rows[1..])
  }

  // ---------- The export ----------

  // The fields as they print; a missing field is empty.
  datatype Transaction = Transaction(
    date: string, direction: string, amount: string, category: string, subCategory: string, description: string,
    name: string, externalId: string, isCategorised: bool)

  const HEADERS: seq<string> :=
    ["Date", "Type", "Amount", "Currency", "Category", "Sub Category", "Description", "Name", "External ID",
     "Categorized"]

  function Row(tx: Transaction, currency: string): seq<string> {
    [tx.date, tx.direction, tx.amount, if currency == "" then "NGN" else currency, tx.category, tx.subCategory,
     tx.description, tx.name, tx.externalId, if tx.isCategorised then "Yes" else "No"]
  }

  function Rows(txs: seq<Transaction>, currency: string): (rows: seq<seq<string>>)
    ensures |rows| == |txs|
  {
    seq(|txs|, i requires 0 <= i < |txs| => Row(txs[i], currency))
  }

  function GenerateTransactionsCsv(txs: seq<Transaction>, currency: string): string {
    Print([HEADERS] + Rows(txs, currency))
  }

  // ---------- A parser for section 2 of RFC 4180 ----------

  // The inside of a quoted field and what follows its closing quote.
  function ParseQuoted(s: string): Option<(string, string)> {
    if s == "" then None
    else if s[0] != QUOTE then
      var (field, rest) :- ParseQuoted(s[1..]);
      Some(([s[0]] + field, rest))
    else if |s| >= 2 && s[1] == QUOTE then
      var (field, rest) :- ParseQuoted(s[2..]);
      Some(([QUOTE] + field, rest))
    else Some(("", s[1..]))
  }

  // A field without quotes ends before a comma or a line break.
  function ParsePlain(s: string): (string, string) {
    if s == "" || s[0] in "\",\r\n" then ("", s)
    else
      var (field, rest) := ParsePlain(s[1..]);
      ([s[0]] + field, rest)
  }

  function ParseField(s: string): Option<(string, string)> {
    if s != "" && s[0] == QUOTE then ParseQuoted(s[1..]) else Some(ParsePlain(s))
  }

  lemma {:induction false} QuotedShrinks(s: string)
    ensures ParseQuoted(s).Some? ==> |ParseQuoted(s).value.1| < |s|
  {
    if s != "" {
      if s[0] != QUOTE { QuotedShrinks(s[1..]); }
      else if |s| >= 2 && s[1] == QUOTE { QuotedShrinks(s[2..]); }
    }
  }

  lemma {:induction false} PlainShrinks(s: string)
    ensures |ParsePlain(s).1| <= |s|
  {
    if s != "" && s[0] !in "\",\r\n" { PlainShrinks(s[1..]); }
  }

  lemma {:induction false} FieldShrinks(s: string)
    ensures ParseField(s).Some? ==> |ParseField(s).value.1| <= |s|
  {
    PlainShrinks(s);
    if s != "" { QuotedShrinks(s[1..]); }
  }

  // One record and the text after its line break.
  function ParseRecord(s: string): Option<(seq<string>, string)>
    decreases |s|
  {
    var (field, rest) :- ParseField(s);
    FieldShrinks(s);
    if rest != "" && rest[0] == ',' then
      var (fields, end) :- ParseRecord(rest[1..]);
      Some(([field] + fields, end))
    else if CRLF <= rest then Some(([field], rest[2..]))
    else None
  }

  lemma {:induction false} RecordShrinks(s: string)
    ensures ParseRecord(s).Some? ==> |ParseRecord(s).value.1| < |s|
    decreases |s|
  {
    FieldShrinks(s);
    var f := ParseField(s);
    if f.Some? && f.value.1 != "" && f.value.1[0] == ',' { RecordShrinks(f.value.1[1..]); }
  }

  function ParseFile(s: string): Option<seq<seq<string>>>
    decreases |s|
  {
    if s == "" then Some([])
    else
      var (record, rest) :- ParseRecord(s);
      RecordShrinks(s);
      var records :- ParseFile(rest);
      Some([record] + records)
  }

  // ---------- Round trip ----------

  // What may follow a field in a record.
  predicate Ends(rest: string) {
    rest != "" && (rest[0] == ',' || CRLF <= rest)
  }

  lemma {:induction false} QuotedRoundTrip(value: string, rest: string)
    requires Ends(rest)
    ensures ParseQuoted(DoubleQuotes(value) + [QUOTE] + rest) == Some((value, rest))
  {
    var tail := [QUOTE] + rest;
    assert DoubleQuotes(value) + [QUOTE] + rest == DoubleQuotes(value) + tail;
    if value == "" {
      assert DoubleQuotes(value) + tail == tail;
      assert tail[1..] == rest;
    } else {
      QuotedRoundTrip(value[1..], rest);
      var text := DoubleQuotes(value[1..]) + tail;
      assert DoubleQuotes(value[1..]) + [QUOTE] + rest == text;
      assert value == [value[0]] + value[1..];
      if value[0] == QUOTE {
        assert DoubleQuotes(value) + tail == [QUOTE, QUOTE] + text;
        assert ([QUOTE, QUOTE] + text)[2..] == text;
      } else {
        assert DoubleQuotes(value) + tail == [value[0]] + text;
        assert ([value[0]] + text)[1..] == text;
      }
    }
  }

  lemma {:induction false} PlainRoundTrip(value: string, rest: string)
    requires Ends(rest) && !NeedsQuotes(value)
    ensures ParsePlain(value + rest) == (value, rest)
  {
    if value == "" {
      assert value + rest == rest;
    } else {
      forall i | 0 <= i < |value[1..]| ensures value[1..][i] !in "\",\r\n" {
        assert value[1..][i] == value[i + 1];
      }
      PlainRoundTrip(value[1..], rest);
      assert (value + rest)[1..] == value[1..] + rest;
      assert value == [value[0]] + value[1..];
    }
  }

  lemma {:induction false} FieldRoundTrip(value: string, rest: string)
    requires Ends(rest)
    ensures ParseField(EscapeCsvValue(value) + rest) == Some((value, rest))
  {
    hide ParseQuoted, ParsePlain, DoubleQuotes;
    var text := EscapeCsvValue(value) + rest;
    if NeedsQuotes(value) {
      QuotedRoundTrip(value, rest);
      assert text == [QUOTE] + (DoubleQuotes(value) + [QUOTE] + rest);
      assert text[1..] == DoubleQuotes(value) + [QUOTE] + rest;
    } else {
      PlainRoundTrip(value, rest);
      assert text[0] == if value == "" then rest[0] else value[0];
    }
  }

  lemma {:induction false} RecordRoundTrip(row: seq<string>, rest: string)
    requires row != []
    ensures ParseRecord(Line(row) + CRLF + rest) == Some((row, rest))
  {
    hide EscapeCsvValue, ParseField;
    if |row| == 1 {
      var end := CRLF + rest;
      assert row == [row[0]];
      assert Line(row) + CRLF + rest == EscapeCsvValue(row[0]) + end;
      FieldRoundTrip(row[0], end);
      assert end[2..] == rest;
    } else {
      var text := Line(row[1..]) + CRLF + rest;
      assert Line(row) + CRLF + rest == EscapeCsvValue(row[0]) + ("," + text);
      FieldRoundTrip(row[0], "," + text);
      assert ("," + text)[1..] == text;
      assert row == [row[0]] + row[1..];
      RecordRoundTrip(row[1..], rest);
    }
  }

  lemma {:induction false} FileRoundTrip(rows: seq<seq<string>>)
    requires forall i :: 0 <= i < |rows| ==> rows[i] != []
    ensures ParseFile(Print(rows)) == Some(rows)
  {
    hide ParseRecord, Line;
    if rows != [] {
      RecordRoundTrip(rows[0], Print(rows[1..]));
      FileRoundTrip(rows[1..]);
      assert rows == [rows[0]] + rows[1..];
      assert |Print(rows)| >= |CRLF|;
    }
  }

  // Parsing an export returns the headers and every field of every transaction, whatever characters they hold.
  lemma {:induction false} ExportRoundTrip(txs: seq<Transaction>, currency: string)
    ensures ParseFile(GenerateTransactionsCsv(txs, currency)) == Some([HEADERS] + Rows(txs, currency))
  {
    hide Print, Row, HEADERS, ParseFile, Rows;
    NoEmptyRow(txs, currency);
    FileRoundTrip([HEADERS] + Rows(txs, currency));
  }

  lemma {:induction false} NoEmptyRow(txs: seq<Transaction>, currency: string)
    ensures forall i :: 0 <= i <= |txs| ==> ([HEADERS] + Rows(txs, currency))[i] != []
  {
    hide HEADERS;
    assert |HEADERS| > 0 by { HeadersExist(); }
    forall i | 0 <= i < |txs| ensures Rows(txs, currency)[i] != [] { assert |Row(txs[i], currency)| == 10; }
  }

  lemma HeadersExist()
    ensures |HEADERS| == 10
  {
  }

  // The field of a row under the column of this name.
  ghost predicate Under(headers: seq<string>, row: seq<string>, name: string, field: string) {
    |row| == |headers| && exists k :: 0 <= k < |headers| && headers[k] == name && row[k] == field
                                      && forall j :: 0 <= j < |headers| && headers[j] == name ==> j == k
  }

  // Whoever reads the exported file finds each field of a transaction under the name of its column.
  lemma {:induction false} ColumnsAreNamed(txs: seq<Transaction>, currency: string, i: nat)
    requires i < |txs|
    ensures ParseFile(GenerateTransactionsCsv(txs, currency)).Some?
    ensures var table := ParseFile(GenerateTransactionsCsv(txs, currency)).value;
            && |table| == |txs| + 1
            && var headers, row, tx := table[0], table[i + 1], txs[i];
               && Under(headers, row, "Date", tx.date) && Under(headers, row, "Type", tx.direction)
               && Under(headers, row, "Amount", tx.amount) && Under(headers, row, "Category", tx.category)
               && Under(headers, row, "Sub Category", tx.subCategory)
               && Under(headers, row, "Description", tx.description) && Under(headers, row, "Name", tx.name)
               && Under(headers, row, "External ID", tx.externalId)
               && Under(headers, row, "Categorized", if tx.isCategorised then "Yes" else "No")
               && Under(headers, row, "Currency", if currency == "" then "NGN" else currency)
  {
    hide ParseFile, Print;
    ExportRoundTrip(txs, currency);
    HeadersDiffer();
    var row := Row(txs[i], currency);
    assert forall k :: 0 <= k < 10 ==> HEADERS[k] == HEADERS[k] && row[k] == row[k];
  }

  lemma HeadersDiffer()
    ensures |HEADERS| == 10
    ensures HEADERS[0] == "Date" && HEADERS[1] == "Type" && HEADERS[2] == "Amount" && HEADERS[3] == "Currency"
    ensures HEADERS[4] == "Category" && HEADERS[5] == "Sub Category" && HEADERS[6] == "Description"
    ensures HEADERS[7] == "Name" && HEADERS[8] == "External ID" && HEADERS[9] == "Categorized"
    ensures forall i, j :: 0 <= i < j < 10 ==> HEADERS[i] != HEADERS[j]
  {
    assert HEADERS[0][0] == 'D' && HEADERS[1][0] == 'T' && HEADERS[2][0] == 'A' && HEADERS[3][0] == 'C';
    assert HEADERS[4][0] == 'C' && HEADERS[5][0] == 'S' && HEADERS[6][0] == 'D' && HEADERS[7][0] == 'N';
    assert |HEADERS[0]| == 4 && |HEADERS[6]| == 11 && |HEADERS[3]| == 8 && |HEADERS[4]| == 8 && |HEADERS[9]| == 11;
    assert HEADERS[3][1] == 'u' && HEADERS[4][1] == 'a' && HEADERS[8][0] == 'E';
  }

  // A value is printed as it is exactly when it holds no quote, comma or line end.
  lemma {:induction false} PlainIffHarmless(value: string)
    ensures EscapeCsvValue(value) == value
       <==> forall i :: 0 <= i < |value| ==> value[i] != '"' && value[i] != ',' && value[i] != '\r' && value[i] != '\n'
  {
    if NeedsQuotes(value) { DoublingGrows(value); }
  }

  lemma {:induction false} DoublingGrows(value: string)
    ensures |DoubleQuotes(value)| >= |value|
  {
    if value != "" { DoublingGrows(value[1..]); }
  }

  // A small file, byte by byte: every line ends with CR LF, and only the field that needs quotes has them.
  lemma SampleFile()
    ensures Print([["a", "b,c"], ["d"]]) == "a," + "\"b,c\"" + "\r\n" + "d" + "\r\n"
  {
    assert !NeedsQuotes("a") && !NeedsQuotes("d");
    assert NeedsQuotes("b,c") by { assert "b,c"[1] in "\",\r\n"; }
    assert DoubleQuotes("b,c") == "b,c";
    assert Line(["b,c"]) == "\"b,c\"";
    assert ["a", "b,c"][1..] == ["b,c"];
    assert Line(["a", "b,c"]) == "a," + "\"b,c\"";
    assert [["a", "b,c"], ["d"]][1..] == [["d"]];
    assert [["d"]][1..] == [];
    assert Print([["d"]]) == "d" + "\r\n";
  }
}
