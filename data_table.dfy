/**
 * The CSV export behind the "Download CSV" button of the dataset table.
 *
 * The header line is the first row's keys joined by `,`, unescaped. Every
 * data line holds one field per header, in header order: the cell's string
 * form (the empty string for `null` or a missing key) with each `"` doubled,
 * wrapped in `"` when it contains `,`, `"` or a line feed. Lines are joined
 * with a single line feed. An empty table produces no CSV at all.
 *
 * A small reader for this dialect (fields as in section 2 of RFC 4180, with
 * LF instead of CRLF between records) is defined alongside, and the export is
 * proved to read back to the table's string values.
 */
module DataTable {
  import opened Wrappers
  import opened Text
  import opened Insight

  // ---------------------------------------------------------------------------
  // One field

  /** The string form of `row[h]`: `""` for `null` or a missing key. */
  function RawField(row: Row, h: string): string
  {
    if h in row.cells && row.cells[h].Scalar? then row.cells[h].text else ""
  }

  /** `s.replace(/"/g, '""')`. */
  function DoubleQuotes(s: string): string
  {
    if s == [] then []
    else (if s[0] == '"' then "\"\"" else [s[0]]) + DoubleQuotes(s[1..])
  }

  lemma {:induction false} DoubleQuotesLength(s: string)
    ensures |DoubleQuotes(s)| >= |s|
  {
    if s != [] {
      DoubleQuotesLength(s[1..]);
    }
  }

  /** Doubling quotes keeps the set of characters of a field. */
  lemma {:induction false} DoubleQuotesChars(s: string, c: char)
    ensures c in DoubleQuotes(s) <==> c in s
  {
    if s != [] {
      DoubleQuotesChars(s[1..], c);
      assert s == [s[0]] + s[1..];
    }
  }

  /** The three characters that make the exporter quote a field. */
  predicate NeedsQuoting(s: string)
  {
    ',' in s || '"' in s || '\n' in s
  }

  /** The exported form of one raw field. */
  function EscapeField(raw: string): (r: string)
    ensures r == raw <==> !NeedsQuoting(raw)
    ensures NeedsQuoting(raw) ==> r == "\"" + DoubleQuotes(raw) + "\""
  {
    var escaped := DoubleQuotes(raw);
    DoubleQuotesLength(raw);
    DoubleQuotesChars(raw, ',');
    DoubleQuotesChars(raw, '"');
    DoubleQuotesChars(raw, '\n');
    if NeedsQuoting(escaped) then
      "\"" + escaped + "\""
    else
      NoQuotesUnchanged(raw);
      escaped
  }

  /** Without a `"` to double, doubling changes nothing. */
  lemma {:induction false} NoQuotesUnchanged(s: string)
    requires '"' !in s
    ensures DoubleQuotes(s) == s
  {
    if s != [] {
      assert '"' !in s[1..];
      NoQuotesUnchanged(s[1..]);
    }
  }

  /** Undoes `DoubleQuotes`: every `""` becomes `"`. */
  function UndoubleQuotes(s: string): string
  {
    if |s| >= 2 && s[0] == '"' && s[1] == '"' then "\"" + UndoubleQuotes(s[2..])
    else if s == [] then []
    else [s[0]] + UndoubleQuotes(s[1..])
  }

  lemma {:induction false} UndoubleDoubleQuotes(s: string)
    ensures UndoubleQuotes(DoubleQuotes(s)) == s
  {
    if s != [] {
      UndoubleDoubleQuotes(s[1..]);
      if s[0] == '"' {
        assert DoubleQuotes(s) == "\"\"" + DoubleQuotes(s[1..]);
      } else {
        assert DoubleQuotes(s) == [s[0]] + DoubleQuotes(s[1..]);
      }
    }
  }

  /** Removing the outer quotes of a quoted field and undoing the doubling
      recovers the raw string; an unquoted field is the raw string itself. */
  lemma UnescapeField(raw: string)
    ensures var f := EscapeField(raw);
            (if NeedsQuoting(raw) then UndoubleQuotes(f[1..|f| - 1]) else f) == raw
  {
    if NeedsQuoting(raw) {
      var f := EscapeField(raw);
      assert f[1..|f| - 1] == DoubleQuotes(raw);
      UndoubleDoubleQuotes(raw);
    }
  }

  /** A carriage return is not one of the quoting characters: a field with a
      carriage return is written as it is exactly when the text on either
      side of it needs no quoting. A line feed always makes a field quoted. */
  lemma CarriageReturnNotQuoted(a: string, b: string)
    ensures EscapeField(a + "\r" + b) == a + "\r" + b <==> !NeedsQuoting(a) && !NeedsQuoting(b)
    ensures EscapeField(a + "\n" + b) == "\"" + DoubleQuotes(a + "\n" + b) + "\""
  {
    CharsAround(a, '\r', b, ',');
    CharsAround(a, '\r', b, '"');
    CharsAround(a, '\r', b, '\n');
    CharsAround(a, '\n', b, '\n');
  }

  /** The characters of `a + [m] + b` are those of `a`, `m` and those of `b`. */
  lemma CharsAround(a: string, m: char, b: string, c: char)
    ensures c in a + [m] + b <==> c in a || c == m || c in b
  {
    var s := a + [m] + b;
    if c in s {
      var k :| 0 <= k < |s| && s[k] == c;
      if k < |a| {
        assert a[k] == c;
      } else if k > |a| {
        assert b[k - |a| - 1] == c;
      }
    }
    if c in a {
      var k :| 0 <= k < |a| && a[k] == c;
      assert s[k] == c;
    }
    if c in b {
      var k :| 0 <= k < |b| && b[k] == c;
      assert s[|a| + 1 + k] == c;
    }
    assert s[|a|] == m;
  }

  // ---------------------------------------------------------------------------
  // Lines and the whole export

  /** The raw (unescaped) values of `row` in header order. */
  function Fields(headers: seq<string>, row: Row): (r: seq<string>)
    ensures |r| == |headers|
    ensures forall j :: 0 <= j < |headers| ==> r[j] == RawField(row, headers[j])
  {
    seq(|headers|, j requires 0 <= j < |headers| => RawField(row, headers[j]))
  }

  function EscapeAll(fs: seq<string>): (r: seq<string>)
    ensures |r| == |fs|
    ensures forall j :: 0 <= j < |fs| ==> r[j] == EscapeField(fs[j])
  {
    seq(|fs|, j requires 0 <= j < |fs| => EscapeField(fs[j]))
  }

  /** One exported record: the escaped fields with `,` between them. */
  function Record(fs: seq<string>): string
    decreases |fs|
  {
    if |fs| == 0 then ""
    else if |fs| == 1 then EscapeField(fs[0])
    else EscapeField(fs[0]) + "," + Record(fs[1..])
  }

  /** A record is the join of the escaped fields with `,`. */
  lemma {:induction false} RecordJoin(fs: seq<string>)
    ensures Record(fs) == Join(EscapeAll(fs), ",")
    decreases |fs|
  {
    if |fs| >= 2 {
      RecordJoin(fs[1..]);
      assert EscapeAll(fs)[1..] == EscapeAll(fs[1..]);
    }
  }

  /** Fields without a quoting character are written as they are. */
  lemma {:induction false} RecordUnquoted(fs: seq<string>)
    requires forall j :: 0 <= j < |fs| ==> !NeedsQuoting(fs[j])
    ensures Record(fs) == Join(fs, ",")
    decreases |fs|
  {
    if |fs| >= 1 {
      assert !NeedsQuoting(fs[0]);
    }
    if |fs| >= 2 {
      RecordUnquoted(fs[1..]);
    }
  }

  /** One record line per row, in row order. */
  function DataLines(headers: seq<string>, rows: seq<Row>): seq<string>
  {
    if rows == [] then []
    else DataLines(headers, rows[..|rows| - 1]) + [Record(Fields(headers, rows[|rows| - 1]))]
  }

  /** The lines of the export: the header line, then one line per row. */
  function CsvLines(rows: seq<Row>): seq<string>
    requires rows != []
  {
    [Join(rows[0].keys, ",")] + DataLines(rows[0].keys, rows)
  }

  lemma {:induction false} DataLinesSpec(headers: seq<string>, rows: seq<Row>)
    ensures |DataLines(headers, rows)| == |rows|
    ensures forall i :: 0 <= i < |rows| ==> DataLines(headers, rows)[i] == Record(Fields(headers, rows[i]))
    decreases |rows|
  {
    if rows != [] {
      var init := rows[..|rows| - 1];
      var last := Record(Fields(headers, rows[|rows| - 1]));
      DataLinesSpec(headers, init);
      assert DataLines(headers, rows) == DataLines(headers, init) + [last];
      forall i | 0 <= i < |rows| ensures DataLines(headers, rows)[i] == Record(Fields(headers, rows[i])) {
        if i < |init| {
          assert rows[i] == init[i];
          assert DataLines(headers, rows)[i] == DataLines(headers, init)[i];
        } else {
          assert i == |rows| - 1;
          assert DataLines(headers, rows)[i] == last;
        }
      }
    }
  }

  /** The export has one line more than the table has rows: the header line,
      the first row's keys joined by commas, then each row's escaped values
      in header order. */
  lemma CsvLinesSpec(rows: seq<Row>)
    requires rows != []
    ensures |CsvLines(rows)| == |rows| + 1
    ensures CsvLines(rows)[0] == Join(rows[0].keys, ",")
    ensures forall i :: 0 <= i < |rows| ==>
              CsvLines(rows)[i + 1] == Record(Fields(rows[0].keys, rows[i]))
  {
    var headers := rows[0].keys;
    var d := DataLines(headers, rows);
    assert |d| == |rows| by { DataLinesSpec(headers, rows); }
    assert CsvLines(rows) == [Join(headers, ",")] + d;
    forall i | 0 <= i < |rows| ensures CsvLines(rows)[i + 1] == Record(Fields(headers, rows[i])) {
      DataLineAt(headers, rows, i);
      assert CsvLines(rows)[i + 1] == d[i];
    }
  }

  lemma DataLineAt(headers: seq<string>, rows: seq<Row>, i: int)
    requires 0 <= i < |rows|
    ensures |DataLines(headers, rows)| == |rows|
    ensures DataLines(headers, rows)[i] == Record(Fields(headers, rows[i]))
  {
    DataLinesSpec(headers, rows);
  }

  /** Extending the rows by one adds that row's line at the end. */
  lemma DataLinesSnoc(headers: seq<string>, rows: seq<Row>, i: int)
    requires 0 <= i < |rows|
    ensures DataLines(headers, rows[..i + 1]) == DataLines(headers, rows[..i]) + [Record(Fields(headers, rows[i]))]
  {
    assert rows[..i + 1][..i] == rows[..i];
  }

  /** `handleDownload`: the text handed to the browser, or `None` when the
      table is empty and nothing is rendered or exported. */
  method HandleDownload(rows: seq<Row>) returns (csv: Option<string>)
    ensures csv.None? <==> rows == []
    ensures rows != [] ==> csv == Some(Join(CsvLines(rows), "\n"))
  {
    if |rows| == 0 {
      return None;
    }
    var headers := rows[0].keys;
    var csvRows := [Join(headers, ",")];
    for i := 0 to |rows|
      invariant csvRows == [Join(headers, ",")] + DataLines(headers, rows[..i])
    {
      var line := Record(Fields(headers, rows[i]));
      DataLinesSnoc(headers, rows, i);
      csvRows := csvRows + [line];
    }
    assert rows[..|rows|] == rows;
    csv := Some(Join(csvRows, "\n"));
  }

  // ---------------------------------------------------------------------------
  // Reading the dialect back

  /** An unquoted field: everything up to the next `,`, line feed or the end. */
  function ReadPlain(s: string): (r: (string, string))
    ensures |r.1| <= |s|
  {
    if s == [] || s[0] == ',' || s[0] == '\n' then ("", s)
    else
      var (f, rest) := ReadPlain(s[1..]);
      ([s[0]] + f, rest)
  }

  /** The inside of a quoted field, after its opening quote, through its
      closing quote; `""` stands for one `"`. `None` when the closing quote
      is missing. */
  function ReadQuoted(s: string): (r: Option<(string, string)>)
    ensures r.Some? ==> |r.value.1| < |s|
  {
    if s == [] then None
    else if s[0] == '"' then
      if |s| >= 2 && s[1] == '"' then
        match ReadQuoted(s[2..])
        case None => None
        case Some((f, rest)) => Some(("\"" + f, rest))
      else Some(("", s[1..]))
    else
      match ReadQuoted(s[1..])
      case None => None
      case Some((f, rest)) => Some(([s[0]] + f, rest))
  }

  function ReadField(s: string): (r: Option<(string, string)>)
    ensures r.Some? ==> |r.value.1| <= |s|
  {
    if s != [] && s[0] == '"' then ReadQuoted(s[1..]) else Some(ReadPlain(s))
  }

  /** One record: fields separated by `,`, ending at a line feed (left in the
      rest) or at the end of the text. */
  function ReadRecord(s: string): (r: Option<(seq<string>, string)>)
    ensures r.Some? ==> |r.value.1| <= |s|
    decreases |s|
  {
    match ReadField(s)
    case None => None
    case Some((f, rest)) =>
      if rest != [] && rest[0] == ',' then
        match ReadRecord(rest[1..])
        case None => None
        case Some((fs, rest')) => Some(([f] + fs, rest'))
      else if rest == [] || rest[0] == '\n' then Some(([f], rest))
      else None
  }

  /** All records of a text; a line feed always starts another record. */
  function ReadDocument(s: string): Option<seq<seq<string>>>
    decreases |s|
  {
    match ReadRecord(s)
    case None => None
    case Some((rec, rest)) =>
      if rest == [] then Some([rec])
      else
        match ReadDocument(rest[1..])
        case None => None
        case Some(recs) => Some([rec] + recs)
  }

  /** What may follow a field. */
  predicate FieldEnd(tail: string)
  {
    tail == [] || tail[0] == ',' || tail[0] == '\n'
  }

  lemma {:induction false} ReadPlainUnquoted(raw: string, tail: string)
    requires !NeedsQuoting(raw) && FieldEnd(tail)
    ensures ReadPlain(raw + tail) == (raw, tail)
  {
    if raw != [] {
      var s := raw + tail;
      assert s[0] == raw[0] && raw[0] in raw;
      assert s[1..] == raw[1..] + tail;
      assert !NeedsQuoting(raw[1..]) by {
        assert forall c :: c in raw[1..] ==> c in raw;
      }
      ReadPlainUnquoted(raw[1..], tail);
      assert raw == [raw[0]] + raw[1..];
    } else {
      assert raw + tail == tail;
    }
  }

  lemma {:induction false} ReadQuotedDoubled(raw: string, tail: string)
    requires FieldEnd(tail)
    ensures ReadQuoted(DoubleQuotes(raw) + "\"" + tail) == Some((raw, tail))
  {
    if raw == [] {
      assert DoubleQuotes(raw) + "\"" + tail == "\"" + tail;
      ReadQuotedClose(tail);
    } else {
      var d := DoubleQuotes(raw[1..]);
      var p := if raw[0] == '"' then "\"\"" else [raw[0]];
      assert DoubleQuotes(raw) == p + d;
      ReadQuotedDoubled(raw[1..], tail);
      Regroup(p, d, "\"", tail);
      Assoc(d, "\"", tail);
      if raw[0] == '"' {
        ReadQuotedPair(d + "\"" + tail, raw[1..], tail);
        assert raw == "\"" + raw[1..];
      } else {
        ReadQuotedChar(raw[0], d + "\"" + tail, raw[1..], tail);
        assert raw == [raw[0]] + raw[1..];
      }
    }
  }

  /** A lone `"` closes a quoted field. */
  lemma ReadQuotedClose(tail: string)
    requires FieldEnd(tail)
    ensures ReadQuoted("\"" + tail) == Some(("", tail))
  {
    assert ("\"" + tail)[1..] == tail;
  }

  /** `""` inside a quoted field stands for one `"`. */
  lemma ReadQuotedPair(rest: string, f: string, t: string)
    requires ReadQuoted(rest) == Some((f, t))
    ensures ReadQuoted("\"\"" + rest) == Some(("\"" + f, t))
  {
    assert ("\"\"" + rest)[2..] == rest;
  }

  /** Any other character inside a quoted field is kept. */
  lemma ReadQuotedChar(c: char, rest: string, f: string, t: string)
    requires c != '"' && ReadQuoted(rest) == Some((f, t))
    ensures ReadQuoted([c] + rest) == Some(([c] + f, t))
  {
    assert ([c] + rest)[1..] == rest;
  }

  /** Reading an exported field gives back its raw value and stops right
      after it. */
  lemma ReadEscapedField(raw: string, tail: string)
    requires FieldEnd(tail)
    ensures ReadField(EscapeField(raw) + tail) == Some((raw, tail))
  {
    if NeedsQuoting(raw) {
      ReadEscapedQuoted(raw, tail);
    } else {
      ReadEscapedPlain(raw, tail);
    }
  }

  lemma ReadEscapedQuoted(raw: string, tail: string)
    requires FieldEnd(tail) && NeedsQuoting(raw)
    ensures ReadField(EscapeField(raw) + tail) == Some((raw, tail))
  {
    ReadQuotedDoubled(raw, tail);
    ReadQuotedField(DoubleQuotes(raw), raw, tail);
  }

  /** A field that opens with `"` is read by `ReadQuoted`. */
  lemma ReadQuotedField(d: string, raw: string, tail: string)
    requires ReadQuoted(d + "\"" + tail) == Some((raw, tail))
    ensures ReadField("\"" + d + "\"" + tail) == Some((raw, tail))
  {
    var s := "\"" + d + "\"" + tail;
    assert s[0] == '"';
    assert s[1..] == d + "\"" + tail;
  }

  lemma ReadEscapedPlain(raw: string, tail: string)
    requires FieldEnd(tail) && !NeedsQuoting(raw)
    ensures ReadField(EscapeField(raw) + tail) == Some((raw, tail))
  {
    var s := raw + tail;
    assert EscapeField(raw) == raw;
    assert s != [] ==> s[0] != '"' by {
      if raw != [] { assert s[0] == raw[0] && raw[0] in raw; }
    }
    assert ReadField(s) == Some(ReadPlain(s));
    ReadPlainUnquoted(raw, tail);
  }

  /** Reading an exported record gives back its raw fields. */
  lemma {:induction false} ReadRecordRoundTrip(fs: seq<string>, tail: string)
    requires |fs| >= 1
    requires tail == [] || tail[0] == '\n'
    ensures ReadRecord(Record(fs) + tail) == Some((fs, tail))
    decreases |fs|
  {
    if |fs| == 1 {
      assert Record(fs) == EscapeField(fs[0]);
      ReadEscapedField(fs[0], tail);
      assert fs == [fs[0]];
    } else {
      ReadRecordRoundTrip(fs[1..], tail);
      ReadRecordCons(fs, tail);
    }
  }

  /** The inductive step of `ReadRecordRoundTrip`. */
  lemma ReadRecordCons(fs: seq<string>, tail: string)
    requires |fs| >= 2
    requires tail == [] || tail[0] == '\n'
    requires ReadRecord(Record(fs[1..]) + tail) == Some((fs[1..], tail))
    ensures ReadRecord(Record(fs) + tail) == Some((fs, tail))
  {
    var e, r := EscapeField(fs[0]), Record(fs[1..]);
    ReadEscapedField(fs[0], "," + (r + tail));
    ReadRecordConsCore(e, r, tail, fs[0], fs[1..]);
    assert fs == [fs[0]] + fs[1..];
  }

  /** A field, a comma and a record read as one longer record. */
  lemma ReadRecordConsCore(e: string, r: string, tail: string, f: string, fs: seq<string>)
    requires ReadField(e + ("," + (r + tail))) == Some((f, "," + (r + tail)))
    requires ReadRecord(r + tail) == Some((fs, tail))
    ensures ReadRecord(e + "," + r + tail) == Some(([f] + fs, tail))
  {
    var rest := "," + (r + tail);
    Regroup(e, ",", r, tail);
    DropSeparator(',', r + tail);
    ReadRecordStep(e + rest, f, rest, fs, tail);
  }

  lemma DropSeparator(c: char, s: string)
    ensures ([c] + s)[1..] == s
  {
  }

  lemma ReadRecordStep(s: string, f: string, rest: string, fs: seq<string>, tail: string)
    requires ReadField(s) == Some((f, rest)) && rest != [] && rest[0] == ','
    requires ReadRecord(rest[1..]) == Some((fs, tail))
    ensures ReadRecord(s) == Some(([f] + fs, tail))
  {
  }

  /** The exported lines of a sequence of records. */
  function RecordLines(recs: seq<seq<string>>): (lines: seq<string>)
    ensures |lines| == |recs|
    ensures forall i :: 0 <= i < |recs| ==> lines[i] == Record(recs[i])
  {
    seq(|recs|, i requires 0 <= i < |recs| => Record(recs[i]))
  }

  /** Reading a sequence of exported records, joined by line feeds, gives
      back every record. */
  lemma {:induction false} ReadDocumentRoundTrip(recs: seq<seq<string>>)
    requires |recs| >= 1
    requires forall i :: 0 <= i < |recs| ==> |recs[i]| >= 1
    ensures ReadDocument(Join(RecordLines(recs), "\n")) == Some(recs)
    decreases |recs|
  {
    var lines := RecordLines(recs);
    if |recs| == 1 {
      ReadRecordRoundTrip(recs[0], []);
      assert Join(lines, "\n") == Record(recs[0]) + [];
      assert recs == [recs[0]];
    } else {
      ReadDocumentRoundTrip(recs[1..]);
      ReadDocumentStep(recs);
    }
  }

  /** The inductive step of the document round trip: the first record is read,
      then the line feed, then the remaining lines. */
  lemma ReadDocumentStep(recs: seq<seq<string>>)
    requires |recs| >= 2 && |recs[0]| >= 1
    requires ReadDocument(Join(RecordLines(recs[1..]), "\n")) == Some(recs[1..])
    ensures ReadDocument(Join(RecordLines(recs), "\n")) == Some(recs)
  {
    var lines := RecordLines(recs);
    assert lines[1..] == RecordLines(recs[1..]);
    var more := Join(lines[1..], "\n");
    JoinFirst(lines, "\n");
    ReadRecordRoundTrip(recs[0], "\n" + more);
    ReadDocumentConsCore(Record(recs[0]), more, recs[0], recs[1..]);
    assert recs == [recs[0]] + recs[1..];
  }

  /** A record, a line feed and a document read as one longer document. */
  lemma ReadDocumentConsCore(line: string, more: string, rec: seq<string>, recs: seq<seq<string>>)
    requires ReadRecord(line + ("\n" + more)) == Some((rec, "\n" + more))
    requires ReadDocument(more) == Some(recs)
    ensures ReadDocument(line + ("\n" + more)) == Some([rec] + recs)
  {
    DropSeparator('\n', more);
  }

  /** The export reads back as the header names followed by every row's string
      values in header order, provided the table has at least one column and
      no column name contains a quoting character (names are not escaped). */
  lemma ExportReadsBack(rows: seq<Row>)
    requires rows != [] && |rows[0].keys| >= 1
    requires forall j :: 0 <= j < |rows[0].keys| ==> !NeedsQuoting(rows[0].keys[j])
    ensures ReadDocument(Join(CsvLines(rows), "\n")) ==
            Some([rows[0].keys] + seq(|rows|, i requires 0 <= i < |rows| => Fields(rows[0].keys, rows[i])))
  {
    var headers := rows[0].keys;
    var recs := [headers] + seq(|rows|, i requires 0 <= i < |rows| => Fields(headers, rows[i]));
    ExportLines(rows, recs);
    ReadDocumentRoundTrip(recs);
  }

  /** The export's lines are the record lines of the header and the rows. */
  lemma ExportLines(rows: seq<Row>, recs: seq<seq<string>>)
    requires rows != []
    requires forall j :: 0 <= j < |rows[0].keys| ==> !NeedsQuoting(rows[0].keys[j])
    requires recs == [rows[0].keys] + seq(|rows|, i requires 0 <= i < |rows| => Fields(rows[0].keys, rows[i]))
    ensures RecordLines(recs) == CsvLines(rows)
  {
    var lines := CsvLines(rows);
    assert |lines| == |recs| by { CsvLinesSpec(rows); }
    forall i | 0 <= i < |recs| ensures RecordLines(recs)[i] == lines[i] {
      if i == 0 {
        HeaderLine(rows);
        assert recs[0] == rows[0].keys;
      } else {
        CsvLineAt(rows, i - 1);
        assert recs[i] == Fields(rows[0].keys, rows[i - 1]);
      }
    }
  }

  /** With no quoting character in the names, the header line is their record. */
  lemma HeaderLine(rows: seq<Row>)
    requires rows != []
    requires forall j :: 0 <= j < |rows[0].keys| ==> !NeedsQuoting(rows[0].keys[j])
    ensures CsvLines(rows)[0] == Record(rows[0].keys)
  {
    RecordUnquoted(rows[0].keys);
  }

  /** Line `i + 1` of the export is the record of row `i`. */
  lemma CsvLineAt(rows: seq<Row>, i: int)
    requires 0 <= i < |rows|
    ensures |CsvLines(rows)| == |rows| + 1
    ensures CsvLines(rows)[i + 1] == Record(Fields(rows[0].keys, rows[i]))
  {
    DataLineAt(rows[0].keys, rows, i);
    assert CsvLines(rows)[i + 1] == DataLines(rows[0].keys, rows)[i];
  }
}
