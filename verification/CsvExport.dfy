/** The CSV printer of wallet-app/src/lib/eventExport.ts against a reader written
    from section 2 of RFC 4180 (with LF as the line break). */
module CsvExport {
  import opened Collections
  import opened Text

  datatype IndexerEvent = IndexerEvent(
    id: string,
    kind: string,
    height: int,
    blockHash: Option<string>,
    producedAt: string,
    payload: string)

  // ---- The printer ----------------------------------------------------------------------

  function DoubleQuotes(value: string): string {
    if value == "" then ""
    else (if value[0] == '"' then "\"\"" else [value[0]]) + DoubleQuotes(value[1..])
  }

  function EscapeCsv(value: string): string {
    "\"" + DoubleQuotes(value) + "\""
  }

  function Join(parts: seq<string>, separator: string): string {
    if parts == [] then ""
    else if |parts| == 1 then parts[0]
    else parts[0] + separator + Join(parts[1..], separator)
  }

  function EscapeAll(fields: seq<string>): seq<string> {
    if fields == [] then [] else [EscapeCsv(fields[0])] + EscapeAll(fields[1..])
  }

  const HEADER: seq<string> := ["id", "type", "height", "block_hash", "produced_at", "payload"]

  function FieldsOf(e: IndexerEvent): seq<string> {
    [e.id, e.kind, Decimal(e.height), if e.blockHash.Some? then e.blockHash.value else "", e.producedAt, e.payload]
  }

  function RowOf(e: IndexerEvent): string {
    Join(EscapeAll(FieldsOf(e)), ",")
  }

  function RowsOf(events: seq<IndexerEvent>): seq<string> {
    if events == [] then [] else [RowOf(events[0])] + RowsOf(events[1..])
  }

  function SerializeEventsToCsv(events: seq<IndexerEvent>): string {
    Join([Join(HEADER, ",")] + RowsOf(events), "\n")
  }

  // ---- The reader -----------------------------------------------------------------------

  /** The text of a quoted field up to its closing quote, and what follows it. */
  function ReadQuoted(s: string): Option<(string, string)> {
    if s == "" then None
    else if s[0] != '"' then
      match ReadQuoted(s[1..])
      case None => None
      case Some((text, rest)) => Some(([s[0]] + text, rest))
    else if |s| > 1 && s[1] == '"' then
      match ReadQuoted(s[2..])
      case None => None
      case Some((text, rest)) => Some(("\"" + text, rest))
    else Some(("", s[1..]))
  }

  predicate EndsField(s: string) {
    s == "" || s[0] == ',' || s[0] == '\n'
  }

  /** A field without quotes; a quote inside it is an error. */
  function ReadPlain(s: string): Option<(string, string)> {
    if EndsField(s) then Some(("", s))
    else if s[0] == '"' then None
    else
      match ReadPlain(s[1..])
      case None => None
      case Some((text, rest)) => Some(([s[0]] + text, rest))
  }

  function ReadField(s: string): (r: Option<(string, string)>)
    ensures r.Some? ==> |r.value.1| <= |s| && EndsField(r.value.1)
  {
    if s != "" && s[0] == '"' then
      QuotedShrinks(s[1..]);
      var r := ReadQuoted(s[1..]);
      if r.Some? && EndsField(r.value.1) then r else None
    else
      PlainShrinks(s);
      ReadPlain(s)
  }

  lemma QuotedShrinks(s: string)
    ensures ReadQuoted(s).Some? ==> |ReadQuoted(s).value.1| <= |s|
  {
  }

  lemma PlainShrinks(s: string)
    ensures ReadPlain(s).Some? ==> |ReadPlain(s).value.1| <= |s| && EndsField(ReadPlain(s).value.1)
  {
  }

  function ReadRecord(s: string): (r: Option<(seq<string>, string)>)
    ensures r.Some? ==> |r.value.1| <= |s| && (r.value.1 == "" || r.value.1[0] == '\n')
    decreases |s|
  {
    match ReadField(s)
    case None => None
    case Some((field, rest)) =>
      if rest == "" || rest[0] == '\n' then Some(([field], rest))
      else
        match ReadRecord(rest[1..])
        case None => None
        case Some((fields, after)) => Some(([field] + fields, after))
  }

  /** All records of a file; the last one may or may not end in a line break. */
  function ReadCsv(s: string): Option<seq<seq<string>>>
    decreases |s|
  {
    match ReadRecord(s)
    case None => None
    case Some((record, rest)) =>
      if rest == "" || rest == "\n" then Some([record])
      else
        match ReadCsv(rest[1..])
        case None => None
        case Some(records) => Some([record] + records)
  }

  // ---- The round trip ---------------------------------------------------------------------

  lemma {:induction false} QuotedReadsBack(value: string, rest: string)
    requires rest == "" || rest[0] != '"'
    ensures ReadQuoted(DoubleQuotes(value) + "\"" + rest) == Some((value, rest))
  {
    var s := DoubleQuotes(value) + "\"" + rest;
    if value == "" {
      assert s == "\"" + rest;
      assert s[1..] == rest;
    } else {
      QuotedReadsBack(value[1..], rest);
      var tail := DoubleQuotes(value[1..]) + "\"" + rest;
      if value[0] == '"' {
        assert s == "\"\"" + tail;
        assert s[2..] == tail;
      } else {
        assert s == [value[0]] + tail;
        assert s[1..] == tail;
      }
      assert value == [value[0]] + value[1..];
    }
  }

  lemma EscapedReadsBack(value: string, rest: string)
    requires EndsField(rest)
    ensures ReadField(EscapeCsv(value) + rest) == Some((value, rest))
  {
    QuotedReadsBack(value, rest);
    assert (EscapeCsv(value) + rest)[1..] == DoubleQuotes(value) + "\"" + rest;
  }

  lemma {:induction false} RecordReadsBack(fields: seq<string>, rest: string)
    requires fields != [] && (rest == "" || rest[0] == '\n')
    ensures ReadRecord(Join(EscapeAll(fields), ",") + rest) == Some((fields, rest))
  {
    var line := Join(EscapeAll(fields), ",");
    if |fields| == 1 {
      assert EscapeAll(fields) == [EscapeCsv(fields[0])];
      assert line == EscapeCsv(fields[0]);
      EscapedReadsBack(fields[0], rest);
      assert fields == [fields[0]];
    } else {
      var more := Join(EscapeAll(fields[1..]), ",") + rest;
      assert EscapeAll(fields)[1..] == EscapeAll(fields[1..]);
      assert line + rest == EscapeCsv(fields[0]) + ("," + more);
      EscapedReadsBack(fields[0], "," + more);
      assert ("," + more)[1..] == more;
      RecordReadsBack(fields[1..], rest);
      assert fields == [fields[0]] + fields[1..];
    }
  }

  function AllFields(events: seq<IndexerEvent>): seq<seq<string>> {
    if events == [] then [] else [FieldsOf(events[0])] + AllFields(events[1..])
  }

  lemma {:induction false} RowsReadBack(events: seq<IndexerEvent>)
    requires events != []
    ensures Join(RowsOf(events), "\n") != "" && Join(RowsOf(events), "\n")[0] == '"'
    ensures ReadCsv(Join(RowsOf(events), "\n")) == Some(AllFields(events))
  {
    var file := Join(RowsOf(events), "\n");
    var row := RowOf(events[0]);
    RowStartsWithQuote(events[0]);
    if |events| == 1 {
      assert RowsOf(events) == [row] && file == row;
      RecordReadsBack(FieldsOf(events[0]), "");
      assert row + "" == row;
      assert AllFields(events) == [FieldsOf(events[0])];
    } else {
      var more := Join(RowsOf(events[1..]), "\n");
      assert RowsOf(events)[1..] == RowsOf(events[1..]);
      RowsReadBack(events[1..]);
      assert file == row + ("\n" + more);
      RecordReadsBack(FieldsOf(events[0]), "\n" + more);
      assert ("\n" + more)[1..] == more;
    }
  }

  lemma RowStartsWithQuote(e: IndexerEvent)
    ensures RowOf(e) != "" && RowOf(e)[0] == '"'
  {
    assert EscapeAll(FieldsOf(e))[0] == EscapeCsv(e.id);
  }

  predicate NoMarks(text: string) {
    forall i | 0 <= i < |text| :: text[i] != ',' && text[i] != '\n' && text[i] != '"'
  }

  lemma {:induction false} PlainReadsBack(text: string, rest: string)
    requires EndsField(rest) && NoMarks(text)
    ensures ReadPlain(text + rest) == Some((text, rest))
  {
    if text == "" {
      assert text + rest == rest;
    } else {
      assert (text + rest)[1..] == text[1..] + rest;
      PlainReadsBack(text[1..], rest);
      assert text == [text[0]] + text[1..];
    }
  }

  predicate PlainName(text: string) {
    text != "" && NoMarks(text)
  }

  lemma {:induction false} PlainRecordReadsBack(fields: seq<string>, rest: string)
    requires fields != [] && (forall i | 0 <= i < |fields| :: PlainName(fields[i])) && (rest == "" || rest[0] == '\n')
    ensures ReadRecord(Join(fields, ",") + rest) == Some((fields, rest))
  {
    assert PlainName(fields[0]);
    if |fields| == 1 {
      PlainReadsBack(fields[0], rest);
      assert fields == [fields[0]];
    } else {
      hide NoMarks;
      var more := Join(fields[1..], ",") + rest;
      assert Join(fields, ",") + rest == fields[0] + ("," + more);
      PlainReadsBack(fields[0], "," + more);
      assert ("," + more)[1..] == more;
      PlainRecordReadsBack(fields[1..], rest);
      assert fields == [fields[0]] + fields[1..];
    }
  }

  lemma HeaderIsPlain()
    ensures forall i | 0 <= i < |HEADER| :: PlainName(HEADER[i])
  {
  }

  /** A quote-aware reader recovers the header and every field of every row,
      whatever commas, quotes and line breaks the fields contain. */
  lemma CsvRoundTrip(events: seq<IndexerEvent>)
    ensures ReadCsv(SerializeEventsToCsv(events)) == Some([HEADER] + AllFields(events))
  {
    HeaderIsPlain();
    var file := SerializeEventsToCsv(events);
    var top := Join(HEADER, ",");
    if events == [] {
      assert [top] + RowsOf(events) == [top];
      assert file == top && top + "" == top;
      assert [HEADER] + AllFields(events) == [HEADER];
      PlainRecordReadsBack(HEADER, "");
    } else {
      var more := Join(RowsOf(events), "\n");
      assert ([top] + RowsOf(events))[1..] == RowsOf(events);
      assert file == top + ("\n" + more);
      RowsReadBack(events);
      PlainRecordReadsBack(HEADER, "\n" + more);
      assert ("\n" + more)[1..] == more;
    }
  }

  lemma {:induction false} FieldsAt(events: seq<IndexerEvent>, i: nat)
    requires i < |events|
    ensures |AllFields(events)| == |events| && AllFields(events)[i] == FieldsOf(events[i])
  {
    if i == 0 {
      if |events| > 1 { FieldsAt(events[1..], 0); }
    } else {
      FieldsAt(events[1..], i - 1);
    }
  }

  /** The cell of a row under a named column, as the header line places it. */
  function Cell(records: seq<seq<string>>, row: nat, column: string): Option<string> {
    if row >= |records| then None
    else
      var c := IndexOf(records[0], column);
      if c < |records[0]| && c < |records[row]| then Some(records[row][c]) else None
  }

  lemma ColumnAt(names: seq<string>, c: nat)
    requires c < |names| && forall k | 0 <= k < c :: names[k] != names[c]
    ensures IndexOf(names, names[c]) == c
  {
  }

  lemma HeaderNamesDiffer()
    ensures forall k, c | 0 <= k < c < |HEADER| :: HEADER[k] != HEADER[c]
    ensures HEADER == ["id", "type", "height", "block_hash", "produced_at", "payload"]
  {
    assert |"id"| == 2 && |"type"| == 4 && |"height"| == 6 && |"block_hash"| == 10 && |"produced_at"| == 11 && |"payload"| == 7;
  }

  lemma CellAt(events: seq<IndexerEvent>, i: nat, c: nat)
    requires i < |events| && c < |HEADER|
    ensures ReadCsv(SerializeEventsToCsv(events)).Some?
    ensures var records := ReadCsv(SerializeEventsToCsv(events)).value;
            |records| == |events| + 1 && Cell(records, i + 1, HEADER[c]) == Some(FieldsOf(events[i])[c])
  {
    hide ReadCsv, SerializeEventsToCsv, AllFields, Decimal;
    CsvRoundTrip(events);
    FieldsAt(events, i);
    HeaderNamesDiffer();
    ColumnAt(HEADER, c);
  }

  /** Reading the file back, every event has its own row, and each column holds what
      its header says. */
  lemma ColumnsHoldWhatTheyName(events: seq<IndexerEvent>, i: nat)
    requires i < |events|
    ensures ReadCsv(SerializeEventsToCsv(events)).Some?
    ensures var records := ReadCsv(SerializeEventsToCsv(events)).value;
            && |records| == |events| + 1
            && Cell(records, i + 1, "id") == Some(events[i].id)
            && Cell(records, i + 1, "type") == Some(events[i].kind)
            && Cell(records, i + 1, "height") == Some(Decimal(events[i].height))
            && Cell(records, i + 1, "block_hash") == Some(if events[i].blockHash.Some? then events[i].blockHash.value else "")
            && Cell(records, i + 1, "produced_at") == Some(events[i].producedAt)
            && Cell(records, i + 1, "payload") == Some(events[i].payload)
  {
    hide ReadCsv, SerializeEventsToCsv, Cell, Decimal;
    HeaderNamesDiffer();
    CellAt(events, i, 0);
    CellAt(events, i, 1);
    CellAt(events, i, 2);
    CellAt(events, i, 3);
    CellAt(events, i, 4);
    CellAt(events, i, 5);
  }

  ghost predicate SameExported(a: IndexerEvent, b: IndexerEvent) {
    && a.id == b.id && a.kind == b.kind && a.height == b.height
    && (if a.blockHash.Some? then a.blockHash.value else "") == (if b.blockHash.Some? then b.blockHash.value else "")
    && a.producedAt == b.producedAt && a.payload == b.payload
  }

  /** Two lists of events with the same CSV agree on every exported field. */
  lemma CsvIsInjective(a: seq<IndexerEvent>, b: seq<IndexerEvent>)
    requires SerializeEventsToCsv(a) == SerializeEventsToCsv(b)
    ensures |a| == |b| && forall i | 0 <= i < |a| :: SameExported(a[i], b[i])
  {
    CsvRoundTrip(a);
    CsvRoundTrip(b);
    assert ([HEADER] + AllFields(a))[1..] == AllFields(a) && ([HEADER] + AllFields(b))[1..] == AllFields(b);
    if |a| > 0 { FieldsAt(a, 0); }
    if |b| > 0 { FieldsAt(b, 0); }
    forall i | 0 <= i < |a| ensures SameExported(a[i], b[i]) {
      FieldsAt(a, i);
      FieldsAt(b, i);
      SameFields(a[i], b[i]);
    }
  }

  lemma SameFields(a: IndexerEvent, b: IndexerEvent)
    requires FieldsOf(a) == FieldsOf(b)
    ensures SameExported(a, b)
  {
    var x, y := FieldsOf(a), FieldsOf(b);
    assert x[0] == y[0] && x[1] == y[1] && x[2] == y[2] && x[3] == y[3] && x[4] == y[4] && x[5] == y[5];
    DecimalInjective(a.height, b.height);
  }
}
