/** The CSV report, and a reader for section 2 of RFC 4180 with line feeds as line ends. */
module AuditorCsv {
  import opened Prelude
  import opened Decimal

  datatype AuditorEventRow = AuditorEventRow(
    id: string,
    txHash: string,
    logIndex: nat,
    blockNumber: string,
    blockTime: string,
    eventName: string,
    fromAddr: Option<string>,
    toAddr: Option<string>,
    amount: string,
    auditorKeyId: string)

  /** A report cell: a number, a text, or null. */
  datatype Cell = Number(n: nat) | Text(s: string) | Null

  function TextOf(c: Cell): string {
    match c
    case Number(n) => ToDecimal(n)
    case Text(s) => s
    case Null => ""
  }

  function Nullable(value: Option<string>): Cell {
    if value.None? then Null else Text(value.value)
  }

  predicate NeedsQuotes(s: string) {
    exists i :: 0 <= i < |s| && s[i] in {'"', ',', '\n', '\r'}
  }

  function DoubleQuotes(s: string): string {
    if s == "" then "" else (if s[0] == '"' then "\"\"" else [s[0]]) + DoubleQuotes(s[1..])
  }

  function CsvCell(c: Cell): string {
    var text := TextOf(c);
    if !NeedsQuotes(text) then text else "\"" + DoubleQuotes(text) + "\""
  }

  function Join(parts: seq<string>, separator: string): string {
    if parts == [] then ""
    else if |parts| == 1 then parts[0]
    else parts[0] + separator + Join(parts[1..], separator)
  }

  function Fields(): seq<string> {
    ["id", "txHash", "logIndex", "blockNumber", "blockTime", "eventName", "fromAddr", "toAddr", "amount",
     "auditorKeyId"]
  }

  /** The cell a row has under a column name. */
  function CellUnder(row: AuditorEventRow, field: string): Cell {
    match field
    case "id" => Text(row.id)
    case "txHash" => Text(row.txHash)
    case "logIndex" => Number(row.logIndex)
    case "blockNumber" => Text(row.blockNumber)
    case "blockTime" => Text(row.blockTime)
    case "eventName" => Text(row.eventName)
    case "fromAddr" => Nullable(row.fromAddr)
    case "toAddr" => Nullable(row.toAddr)
    case "amount" => Text(row.amount)
    case "auditorKeyId" => Text(row.auditorKeyId)
    case _ => Null
  }

  function CellParts(row: AuditorEventRow, fields: seq<string>): (parts: seq<string>)
    ensures |parts| == |fields|
  {
    if fields == [] then [] else [CsvCell(CellUnder(row, fields[0]))] + CellParts(row, fields[1..])
  }

  function RowLines(rows: seq<AuditorEventRow>, fields: seq<string>): seq<string> {
    if rows == [] then [] else [Join(CellParts(rows[0], fields), ",")] + RowLines(rows[1..], fields)
  }

  function SerializeAuditorReportCsv(rows: seq<AuditorEventRow>): string {
    Join([Join(Fields(), ",")] + RowLines(rows, Fields()), "\n") + "\n"
  }

  // ---------- The reader ----------

  /** The rest of a quoted field after its opening quote, and what follows its closing quote. */
  function ReadQuoted(s: string): (r: Option<(string, string)>)
    ensures r.Some? ==> |r.value.1| < |s|
  {
    if s == "" then None
    else if s[0] != '"' then
      var rest := ReadQuoted(s[1..]);
      if rest.None? then None else Some(([s[0]] + rest.value.0, rest.value.1))
    else if |s| > 1 && s[1] == '"' then
      var rest := ReadQuoted(s[2..]);
      if rest.None? then None else Some((['"'] + rest.value.0, rest.value.1))
    else Some(("", s[1..]))
  }

  /** An unquoted field runs up to a comma or a line end, and holds no quote or carriage return. */
  function ReadPlain(s: string): (r: Option<(string, string)>)
    ensures r.Some? ==> |r.value.1| <= |s|
  {
    if s == "" || s[0] == ',' || s[0] == '\n' then Some(("", s))
    else if s[0] == '"' || s[0] == '\r' then None
    else
      var rest := ReadPlain(s[1..]);
      if rest.None? then None else Some(([s[0]] + rest.value.0, rest.value.1))
  }

  function ReadField(s: string): (r: Option<(string, string)>)
    ensures r.Some? ==> |r.value.1| <= |s|
  {
    if s != "" && s[0] == '"' then ReadQuoted(s[1..]) else ReadPlain(s)
  }

  /** The fields of one record and what follows its line end. */
  function ReadRecord(s: string): (r: Option<(seq<string>, string)>)
    ensures r.Some? ==> |r.value.1| < |s|
    decreases |s|
  {
    var field := ReadField(s);
    if field.None? || field.value.1 == "" then None
    else
      var text, rest := field.value.0, field.value.1;
      if rest[0] == '\n' then Some(([text], rest[1..]))
      else if rest[0] != ',' then None
      else
        var others := ReadRecord(rest[1..]);
        if others.None? then None else Some(([text] + others.value.0, others.value.1))
  }

  function ReadCsv(s: string): Option<seq<seq<string>>>
    decreases |s|
  {
    if s == "" then Some([])
    else
      var record := ReadRecord(s);
      if record.None? then None
      else
        var others := ReadCsv(record.value.1);
        if others.None? then None else Some([record.value.0] + others.value)
  }

  // ---------- Fields ----------

  predicate EndsField(s: string) {
    s != "" && (s[0] == ',' || s[0] == '\n')
  }

  lemma {:induction false} QuotedRoundTrip(text: string, rest: string)
    requires EndsField(rest)
    ensures ReadQuoted(DoubleQuotes(text) + "\"" + rest) == Some((text, rest))
  {
    var s := DoubleQuotes(text) + "\"" + rest;
    if text == "" {
      assert s == ['"'] + rest && s[1..] == rest;
    } else {
      QuotedRoundTrip(text[1..], rest);
      var tail := DoubleQuotes(text[1..]) + "\"" + rest;
      assert [text[0]] + text[1..] == text;
      QuotedCons(text, rest);
      ReadQuotedStep(text[0], tail, text[1..], rest);
    }
  }

  lemma QuotedCons(text: string, rest: string)
    requires text != ""
    ensures DoubleQuotes(text) + "\"" + rest
            == (if text[0] == '"' then ['"', '"'] else [text[0]]) + (DoubleQuotes(text[1..]) + "\"" + rest)
  {
    var front, tail := if text[0] == '"' then ['"', '"'] else [text[0]], DoubleQuotes(text[1..]);
    assert DoubleQuotes(text) == front + tail;
    assert (front + tail) + "\"" + rest == front + (tail + "\"" + rest);
  }

  /** One more character in front of what is read. */
  lemma ReadQuotedStep(c: char, tail: string, text: string, rest: string)
    requires ReadQuoted(tail) == Some((text, rest))
    ensures ReadQuoted((if c == '"' then ['"', '"'] else [c]) + tail) == Some(([c] + text, rest))
  {
    if c == '"' {
      assert (['"', '"'] + tail)[2..] == tail;
    } else {
      assert ([c] + tail)[1..] == tail;
    }
  }

  lemma {:induction false} PlainRoundTrip(text: string, rest: string)
    requires EndsField(rest) && !NeedsQuotes(text)
    ensures ReadPlain(text + rest) == Some((text, rest))
  {
    if text == "" {
      assert text + rest == rest;
    } else {
      assert forall i :: 0 <= i < |text| ==> text[i] !in {'"', ',', '\n', '\r'};
      assert !NeedsQuotes(text[1..]) by {
        assert forall i :: 0 <= i < |text[1..]| ==> text[1..][i] == text[i + 1];
      }
      PlainRoundTrip(text[1..], rest);
      assert (text + rest)[1..] == text[1..] + rest;
      assert [text[0]] + text[1..] == text;
    }
  }

  /** Whatever follows a written field, the reader takes the text from it and leaves the rest. */
  ghost predicate Denotes(part: string, text: string) {
    forall rest :: EndsField(rest) ==> ReadField(part + rest) == Some((text, rest))
  }

  lemma PlainDenotesItself(text: string)
    requires !NeedsQuotes(text)
    ensures Denotes(text, text)
  {
    forall rest | EndsField(rest)
      ensures ReadField(text + rest) == Some((text, rest))
    {
      PlainRoundTrip(text, rest);
      if text != "" {
        assert text[0] !in {'"', ',', '\n', '\r'};
      }
    }
  }

  lemma QuotedDenotes(text: string, doubled: string)
    requires doubled == DoubleQuotes(text)
    ensures Denotes("\"" + doubled + "\"", text)
  {
    forall rest | EndsField(rest)
      ensures ReadField("\"" + doubled + "\"" + rest) == Some((text, rest))
    {
      QuotedRoundTrip(text, rest);
      var s := "\"" + doubled + "\"" + rest;
      assert s[0] == '"' && s[1..] == doubled + "\"" + rest;
    }
  }

  /** A cell is read back as its text, null as the empty text. */
  lemma CellDenotesItsText(c: Cell)
    ensures Denotes(CsvCell(c), TextOf(c))
  {
    var text := TextOf(c);
    if NeedsQuotes(text) {
      QuotedDenotes(text, DoubleQuotes(text));
    } else {
      PlainDenotesItself(text);
    }
  }

  // ---------- Records ----------

  ghost predicate AllDenote(parts: seq<string>, texts: seq<string>) {
    |parts| == |texts| && forall i :: 0 <= i < |parts| ==> Denotes(parts[i], texts[i])
  }

  lemma LastField(part: string, text: string, rest: string)
    requires Denotes(part, text)
    ensures ReadRecord(part + ("\n" + rest)) == Some(([text], rest))
  {
    var tail := "\n" + rest;
    assert ReadField(part + tail) == Some((text, tail));
    assert tail[1..] == rest;
  }

  lemma FieldBefore(part: string, text: string, inner: string, texts: seq<string>, rest: string)
    requires Denotes(part, text) && ReadRecord(inner) == Some((texts, rest))
    ensures ReadRecord(part + ("," + inner)) == Some(([text] + texts, rest))
  {
    var tail := "," + inner;
    assert ReadField(part + tail) == Some((text, tail));
    assert tail[1..] == inner;
  }

  lemma JoinStep(parts: seq<string>, rest: string)
    requires |parts| > 1
    ensures Join(parts, ",") + "\n" + rest == parts[0] + ("," + (Join(parts[1..], ",") + "\n" + rest))
  {
  }

  lemma {:induction false} RecordRoundTrip(parts: seq<string>, texts: seq<string>, rest: string)
    requires parts != [] && AllDenote(parts, texts)
    ensures ReadRecord(Join(parts, ",") + "\n" + rest) == Some((texts, rest))
  {
    if |parts| == 1 {
      LastField(parts[0], texts[0], rest);
      assert Join(parts, ",") + "\n" + rest == parts[0] + ("\n" + rest);
      assert texts == [texts[0]];
    } else {
      RecordRoundTrip(parts[1..], texts[1..], rest);
      FieldBefore(parts[0], texts[0], Join(parts[1..], ",") + "\n" + rest, texts[1..], rest);
      JoinStep(parts, rest);
      assert texts == [texts[0]] + texts[1..];
    }
  }

  ghost predicate IsRecord(line: string, texts: seq<string>) {
    forall rest :: ReadRecord(line + "\n" + rest) == Some((texts, rest))
  }

  lemma JoinedIsRecord(parts: seq<string>, texts: seq<string>)
    requires parts != [] && AllDenote(parts, texts)
    ensures IsRecord(Join(parts, ","), texts)
  {
    forall rest ensures ReadRecord(Join(parts, ",") + "\n" + rest) == Some((texts, rest)) {
      RecordRoundTrip(parts, texts, rest);
    }
  }

  ghost predicate AllRecords(lines: seq<string>, records: seq<seq<string>>) {
    |lines| == |records| && forall i :: 0 <= i < |lines| ==> IsRecord(lines[i], records[i])
  }

  lemma ReadLineStep(line: string, texts: seq<string>, rest: string)
    requires IsRecord(line, texts) && ReadCsv(rest).Some?
    ensures ReadCsv(line + "\n" + rest) == Some([texts] + ReadCsv(rest).value)
  {
    assert ReadRecord(line + "\n" + rest) == Some((texts, rest));
  }

  lemma {:induction false} LinesRoundTrip(lines: seq<string>, records: seq<seq<string>>)
    requires lines != [] && AllRecords(lines, records)
    ensures ReadCsv(Join(lines, "\n") + "\n") == Some(records)
  {
    if |lines| == 1 {
      ReadLineStep(lines[0], records[0], "");
      assert lines[0] + "\n" + "" == Join(lines, "\n") + "\n";
      assert records == [records[0]] + [];
    } else {
      LinesRoundTrip(lines[1..], records[1..]);
      var rest := Join(lines[1..], "\n") + "\n";
      ReadLineStep(lines[0], records[0], rest);
      assert lines[0] + "\n" + rest == Join(lines, "\n") + "\n";
      assert records == [records[0]] + records[1..];
    }
  }

  // ---------- The report ----------

  function Texts(row: AuditorEventRow, fields: seq<string>): (texts: seq<string>)
    ensures |texts| == |fields|
  {
    if fields == [] then [] else [TextOf(CellUnder(row, fields[0]))] + Texts(row, fields[1..])
  }

  function AllTexts(rows: seq<AuditorEventRow>, fields: seq<string>): (records: seq<seq<string>>)
    ensures |records| == |rows|
    ensures forall i :: 0 <= i < |rows| ==> records[i] == Texts(rows[i], fields)
  {
    if rows == [] then [] else [Texts(rows[0], fields)] + AllTexts(rows[1..], fields)
  }

  lemma {:induction false} CellPartsDenote(row: AuditorEventRow, fields: seq<string>)
    ensures AllDenote(CellParts(row, fields), Texts(row, fields))
  {
    if fields != [] {
      CellPartsDenote(row, fields[1..]);
      CellDenotesItsText(CellUnder(row, fields[0]));
    }
  }

  lemma {:induction false} RowLinesAreRecords(rows: seq<AuditorEventRow>, fields: seq<string>)
    requires fields != []
    ensures AllRecords(RowLines(rows, fields), AllTexts(rows, fields))
  {
    if rows != [] {
      RowLinesAreRecords(rows[1..], fields);
      CellPartsDenote(rows[0], fields);
      JoinedIsRecord(CellParts(rows[0], fields), Texts(rows[0], fields));
    }
  }

  lemma HeaderIsRecord(fields: seq<string>)
    requires fields != [] && forall i :: 0 <= i < |fields| ==> !NeedsQuotes(fields[i])
    ensures IsRecord(Join(fields, ","), fields)
  {
    forall i | 0 <= i < |fields| ensures Denotes(fields[i], fields[i]) {
      PlainDenotesItself(fields[i]);
    }
    JoinedIsRecord(fields, fields);
  }

  lemma ReportRoundTrip(rows: seq<AuditorEventRow>, fields: seq<string>)
    requires fields != [] && forall i :: 0 <= i < |fields| ==> !NeedsQuotes(fields[i])
    ensures ReadCsv(Join([Join(fields, ",")] + RowLines(rows, fields), "\n") + "\n")
            == Some([fields] + AllTexts(rows, fields))
  {
    HeaderIsRecord(fields);
    RowLinesAreRecords(rows, fields);
    LinesRoundTrip([Join(fields, ",")] + RowLines(rows, fields), [fields] + AllTexts(rows, fields));
  }

  lemma FieldsArePlain()
    ensures forall i :: 0 <= i < |Fields()| ==> !NeedsQuotes(Fields()[i])
  {
  }

  /** The report read back is the header followed by the text of every cell, whatever the cells hold. */
  lemma ReportIsReadBack(rows: seq<AuditorEventRow>)
    ensures ReadCsv(SerializeAuditorReportCsv(rows)) == Some([Fields()] + AllTexts(rows, Fields()))
  {
    FieldsArePlain();
    ReportRoundTrip(rows, Fields());
  }

  /** Rows that differ only in null against the empty text. */
  predicate SameButNull(a: AuditorEventRow, b: AuditorEventRow) {
    && a.fromAddr.GetOr("") == b.fromAddr.GetOr("") && a.toAddr.GetOr("") == b.toAddr.GetOr("")
    && a.(fromAddr := b.fromAddr, toAddr := b.toAddr) == b
  }

  /** A row as the report's columns show it. */
  function Line(row: AuditorEventRow): seq<string> {
    [row.id, row.txHash, ToDecimal(row.logIndex), row.blockNumber, row.blockTime, row.eventName,
     row.fromAddr.GetOr(""), row.toAddr.GetOr(""), row.amount, row.auditorKeyId]
  }

  lemma TextsUnfold(row: AuditorEventRow)
    ensures Texts(row, Fields()) == Line(row)
  {
    forall k | 0 <= k < 10 ensures Texts(row, Fields())[k] == TextOf(CellUnder(row, Fields()[k])) {
      TextsAt(row, Fields(), k);
    }
  }

  lemma {:induction false} TextsAt(row: AuditorEventRow, fields: seq<string>, k: nat)
    requires k < |fields|
    ensures Texts(row, fields)[k] == TextOf(CellUnder(row, fields[k]))
  {
    if k > 0 {
      TextsAt(row, fields[1..], k - 1);
    }
  }

  /** What a reader of the report finds: ten columns under their names, one line for each row. */
  lemma ReportShows(rows: seq<AuditorEventRow>) returns (report: seq<seq<string>>)
    ensures ReadCsv(SerializeAuditorReportCsv(rows)) == Some(report) && |report| == 1 + |rows|
    ensures report[0] == ["id", "txHash", "logIndex", "blockNumber", "blockTime", "eventName", "fromAddr", "toAddr",
                          "amount", "auditorKeyId"]
    ensures forall i :: 0 <= i < |rows| ==> report[i + 1] == Line(rows[i])
  {
    ReportIsReadBack(rows);
    report := [Fields()] + AllTexts(rows, Fields());
    LinesAre(rows, AllTexts(rows, Fields()));
  }

  lemma LinesAre(rows: seq<AuditorEventRow>, texts: seq<seq<string>>)
    requires texts == AllTexts(rows, Fields())
    ensures forall i :: 0 <= i < |rows| ==> texts[i] == Line(rows[i])
  {
    forall i | 0 <= i < |rows| ensures texts[i] == Line(rows[i]) {
      TextsUnfold(rows[i]);
    }
  }

  lemma SameTexts(a: AuditorEventRow, b: AuditorEventRow)
    requires Texts(a, Fields()) == Texts(b, Fields())
    ensures SameButNull(a, b)
  {
    TextsUnfold(a);
    TextsUnfold(b);
    var s, t := Texts(a, Fields()), Texts(b, Fields());
    assert s[0] == t[0] && s[1] == t[1] && s[2] == t[2] && s[3] == t[3] && s[4] == t[4];
    assert s[5] == t[5] && s[6] == t[6] && s[7] == t[7] && s[8] == t[8] && s[9] == t[9];
    DecimalValue(a.logIndex);
    DecimalValue(b.logIndex);
  }

  lemma {:induction false} SameParts(a: AuditorEventRow, b: AuditorEventRow, fields: seq<string>)
    requires SameButNull(a, b)
    ensures CellParts(a, fields) == CellParts(b, fields)
  {
    if fields != [] {
      assert TextOf(CellUnder(a, fields[0])) == TextOf(CellUnder(b, fields[0]));
      SameParts(a, b, fields[1..]);
    }
  }

  predicate AllSameButNull(rows: seq<AuditorEventRow>, rows': seq<AuditorEventRow>) {
    |rows| == |rows'| && forall i :: 0 <= i < |rows| ==> SameButNull(rows[i], rows'[i])
  }

  lemma {:induction false} SameLines(rows: seq<AuditorEventRow>, rows': seq<AuditorEventRow>, fields: seq<string>)
    requires AllSameButNull(rows, rows')
    ensures RowLines(rows, fields) == RowLines(rows', fields)
  {
    if rows != [] {
      SameParts(rows[0], rows'[0], fields);
      SameLines(rows[1..], rows'[1..], fields);
    }
  }

  /** Two reports have the same text exactly when their rows agree, null counting as the empty text. */
  lemma ReportIsUnambiguous(rows: seq<AuditorEventRow>, rows': seq<AuditorEventRow>)
    ensures SerializeAuditorReportCsv(rows) == SerializeAuditorReportCsv(rows') <==> AllSameButNull(rows, rows')
  {
    if AllSameButNull(rows, rows') {
      SameLines(rows, rows', Fields());
    }
    if SerializeAuditorReportCsv(rows) == SerializeAuditorReportCsv(rows') {
      SameReport(rows, rows');
    }
  }

  lemma SameReport(rows: seq<AuditorEventRow>, rows': seq<AuditorEventRow>)
    requires SerializeAuditorReportCsv(rows) == SerializeAuditorReportCsv(rows')
    ensures AllSameButNull(rows, rows')
  {
    ReportIsReadBack(rows);
    ReportIsReadBack(rows');
    var a, b := AllTexts(rows, Fields()), AllTexts(rows', Fields());
    assert ([Fields()] + a)[1..] == a && ([Fields()] + b)[1..] == b;
    forall i | 0 <= i < |rows| ensures SameButNull(rows[i], rows'[i]) {
      assert a[i] == b[i];
      SameTexts(rows[i], rows'[i]);
    }
  }
}
