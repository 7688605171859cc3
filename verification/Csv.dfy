/** Comma-separated values: the two printers of the backend against a reader of
    RFC 4180 section 2 with LF between records. */
module Csv {
  import opened Printing

  datatype Option<T> = None | Some(value: T)

  /** A double quote becomes two. */
  function Doubled(s: string): string {
    if s == "" then "" else (if s[0] == '"' then "\"\"" else [s[0]]) + Doubled(s[1..])
  }

  function Quoted(s: string): string {
    "\"" + Doubled(s) + "\""
  }

  predicate NeedsQuotes(s: string) {
    ',' in s || '"' in s || '\n' in s
  }

  /** Quotes only text that holds a comma, a quote or a line feed. */
  function EscapeCsvValue(s: string): string {
    if NeedsQuotes(s) then Quoted(s) else s
  }

  // ---------------------------------------------------------------------------------------------
  // The reader.

  /** The content of a quoted field up to its closing quote, and what follows. */
  function ReadQuoted(s: string): (r: (string, string))
    ensures |r.0| + |r.1| <= |s|
  {
    if s == "" then ("", "")
    else if s[0] != '"' then var (c, rest) := ReadQuoted(s[1..]); ([s[0]] + c, rest)
    else if |s| > 1 && s[1] == '"' then var (c, rest) := ReadQuoted(s[2..]); ("\"" + c, rest)
    else ("", s[1..])
  }

  function BareLength(s: string): (n: nat)
    ensures n <= |s| && (forall i | 0 <= i < n :: s[i] != ',' && s[i] != '\n')
    ensures n < |s| ==> s[n] == ',' || s[n] == '\n'
  {
    if s == "" || s[0] == ',' || s[0] == '\n' then 0 else 1 + BareLength(s[1..])
  }

  function ReadField(s: string): (r: (string, string))
    ensures |r.0| + |r.1| <= |s|
  {
    if s != "" && s[0] == '"' then ReadQuoted(s[1..]) else
    var n := BareLength(s);
    (s[..n], s[n..])
  }

  /** All records, or None when text follows a closing quote. */
  function Read(s: string): Option<seq<seq<string>>>
    decreases |s|
  {
    var (field, rest) := ReadField(s);
    if rest == "" then Some([[field]])
    else if rest[0] == ',' then
      match Read(rest[1..])
      case None => None
      case Some(rows) => if rows == [] then None else Some([[field] + rows[0]] + rows[1..])
    else if rest[0] == '\n' then
      match Read(rest[1..])
      case None => None
      case Some(rows) => Some([[field]] + rows)
    else None
  }

  // ---------------------------------------------------------------------------------------------
  // Tables of cells as the printers write them.

  datatype Cell = Bare(text: string) | Always(text: string) | Escaped(text: string)

  function Print(c: Cell): string {
    match c
    case Bare(text) => text
    case Always(text) => Quoted(text)
    case Escaped(text) => EscapeCsvValue(text)
  }

  /** Text the reader takes as it stands. */
  predicate Plain(s: string) {
    ',' !in s && '\n' !in s && (s != "" ==> s[0] != '"')
  }

  predicate CellOk(c: Cell) {
    c.Bare? ==> Plain(c.text)
  }

  function PrintRow(row: seq<Cell>): string {
    if row == [] then "" else if |row| == 1 then Print(row[0]) else Print(row[0]) + "," + PrintRow(row[1..])
  }

  function PrintTable(rows: seq<seq<Cell>>): string {
    if rows == [] then "" else if |rows| == 1 then PrintRow(rows[0]) else PrintRow(rows[0]) + "\n" + PrintTable(rows[1..])
  }

  function Texts(row: seq<Cell>): (r: seq<string>)
    ensures |r| == |row| && forall i | 0 <= i < |row| :: r[i] == row[i].text
  {
    if row == [] then [] else [row[0].text] + Texts(row[1..])
  }

  function AllTexts(rows: seq<seq<Cell>>): (r: seq<seq<string>>)
    ensures |r| == |rows|
  {
    if rows == [] then [] else [Texts(rows[0])] + AllTexts(rows[1..])
  }

  predicate RowOk(row: seq<Cell>) {
    forall i | 0 <= i < |row| :: CellOk(row[i])
  }

  predicate TableOk(rows: seq<seq<Cell>>) {
    forall i | 0 <= i < |rows| :: RowOk(rows[i])
  }

  predicate Stops(tail: string) {
    tail == "" || tail[0] == ',' || tail[0] == '\n'
  }

  // ---------------------------------------------------------------------------------------------
  // One field.

  lemma {:induction false} ReadsBackDoubled(s: string, tail: string)
    requires Stops(tail)
    ensures ReadQuoted(Doubled(s) + ("\"" + tail)) == (s, tail)
  {
    var end := "\"" + tail;
    if s == "" {
      assert Doubled(s) + end == end && end[1..] == tail;
    } else {
      ReadsBackDoubled(s[1..], tail);
      var rest := Doubled(s[1..]) + end;
      assert s == [s[0]] + s[1..];
      if s[0] == '"' {
        assert Doubled(s) + end == "\"\"" + rest && ("\"\"" + rest)[2..] == rest;
      } else {
        assert Doubled(s) + end == [s[0]] + rest && ([s[0]] + rest)[1..] == rest;
      }
    }
  }

  lemma ReadsBackQuoted(s: string, tail: string)
    requires Stops(tail)
    ensures ReadField(Quoted(s) + tail) == (s, tail)
  {
    ReadsBackDoubled(s, tail);
    assert (Quoted(s) + tail)[1..] == Doubled(s) + ("\"" + tail);
  }

  lemma BareLengthIs(s: string, n: nat)
    requires n <= |s| && (forall i | 0 <= i < n :: s[i] != ',' && s[i] != '\n')
    requires n < |s| ==> s[n] == ',' || s[n] == '\n'
    ensures BareLength(s) == n
  {
  }

  lemma ReadsBackPlain(s: string, tail: string)
    requires Plain(s) && Stops(tail)
    ensures ReadField(s + tail) == (s, tail)
  {
    var t := s + tail;
    forall i | 0 <= i < |s| ensures t[i] != ',' && t[i] != '\n' { assert t[i] == s[i] && s[i] in s; }
    assert |s| < |t| ==> t[|s|] == tail[0];
    BareLengthIs(t, |s|);
    assert t[..|s|] == s && t[|s|..] == tail;
  }

  function LeadingQuotes(s: string): nat {
    if s == "" || s[0] != '"' then 0 else 1 + LeadingQuotes(s[1..])
  }

  lemma {:induction false} QuotesAreHalved(s: string)
    ensures 2 * LeadingQuotes(ReadQuoted(s).0) <= LeadingQuotes(s)
    decreases |s|
  {
    if |s| > 1 && s[0] == s[1] == '"' {
      QuotesAreHalved(s[2..]);
      var c := ReadQuoted(s[2..]).0;
      assert ("\"" + c)[1..] == c && s[1..][1..] == s[2..];
    }
  }

  lemma {:induction false} LeadingQuotesStopAtTail(s: string, tail: string)
    requires Stops(tail)
    ensures LeadingQuotes(s + tail) == LeadingQuotes(s)
  {
    if s == "" {
      assert s + tail == tail;
    } else {
      LeadingQuotesStopAtTail(s[1..], tail);
      assert (s + tail)[1..] == s[1..] + tail;
    }
  }

  /** The reader gets a bare text back exactly when it is plain. */
  lemma BareTextSurvivesIff(s: string, tail: string)
    requires Stops(tail)
    ensures ReadField(s + tail).0 == s <==> Plain(s)
  {
    var t := s + tail;
    if Plain(s) {
      ReadsBackPlain(s, tail);
    } else if s != "" && s[0] == '"' {
      assert t[1..] == s[1..] + tail;
      QuotesAreHalved(t[1..]);
      LeadingQuotesStopAtTail(s[1..], tail);
    } else {
      var n := BareLength(t);
      assert forall i | 0 <= i < n :: t[..n][i] == t[i];
      assert ',' !in t[..n] && '\n' !in t[..n];
    }
  }

  lemma FieldSurvivesIff(c: Cell, tail: string)
    requires Stops(tail)
    ensures ReadField(Print(c) + tail).0 == c.text <==> CellOk(c)
    ensures CellOk(c) ==> ReadField(Print(c) + tail) == (c.text, tail)
  {
    match c
    case Bare(s) => BareTextSurvivesIff(s, tail); if Plain(s) { ReadsBackPlain(s, tail); }
    case Always(s) => ReadsBackQuoted(s, tail);
    case Escaped(s) => if NeedsQuotes(s) { ReadsBackQuoted(s, tail); } else { ReadsBackPlain(s, tail); }
  }

  // ---------------------------------------------------------------------------------------------
  // Whole tables.

  lemma ReadStartsWithField(s: string)
    ensures Read(s).Some? ==> Read(s).value != [] && Read(s).value[0] != [] && Read(s).value[0][0] == ReadField(s).0
  {
  }

  /** What reading a row and the records after it gives. */
  function WithRow(row: seq<string>, more: Option<seq<seq<string>>>): Option<seq<seq<string>>> {
    match more case None => None case Some(rows) => Some([row] + rows)
  }

  lemma ReadAfterComma(s: string, field: string, rest: string)
    requires ReadField(s) == (field, "," + rest)
    ensures Read(s) == match Read(rest) case None => None case Some(rows) => Some([[field] + rows[0]] + rows[1..])
  {
    ReadStartsWithField(rest);
    assert ("," + rest)[1..] == rest;
  }

  lemma {:induction false} RowSurvivesIff(row: seq<Cell>, tail: string, more: Option<seq<seq<string>>>)
    requires row != [] && (tail == "" || tail[0] == '\n')
    requires more == if tail == "" then Some([]) else Read(tail[1..])
    ensures RowOk(row) ==> Read(PrintRow(row) + tail) == WithRow(Texts(row), more)
    ensures !RowOk(row) ==> Read(PrintRow(row) + tail).None? || Read(PrintRow(row) + tail).value[0] != Texts(row)
  {
    hide Read, ReadField, CellOk, Print;
    if |row| == 1 {
      LastCell(row, tail, more);
    } else {
      var first, others := row[0], row[1..];
      var rest := PrintRow(others) + tail;
      var s := PrintRow(row) + tail;
      assert s == Print(first) + ("," + rest);
      FieldSurvivesIff(first, "," + rest);
      ReadStartsWithField(s);
      assert RowOk(row) <==> CellOk(first) && RowOk(others);
      assert Texts(row)[0] == first.text && Texts(row) == [first.text] + Texts(others);
      if CellOk(first) {
        RowSurvivesIff(others, tail, more);
        ReadAfterComma(s, first.text, rest);
        ReadStartsWithField(rest);
        if Read(rest).Some? { FirstRowGrows(first.text, Texts(others), Read(rest).value, more); }
      }
    }
  }

  lemma LastCell(row: seq<Cell>, tail: string, more: Option<seq<seq<string>>>)
    requires |row| == 1 && (tail == "" || tail[0] == '\n')
    requires more == if tail == "" then Some([]) else Read(tail[1..])
    ensures RowOk(row) ==> Read(PrintRow(row) + tail) == WithRow(Texts(row), more)
    ensures !RowOk(row) ==> Read(PrintRow(row) + tail).None? || Read(PrintRow(row) + tail).value[0] != Texts(row)
  {
    hide CellOk, Print, ReadField;
    ReadStartsWithField(PrintRow(row) + tail);
    FieldSurvivesIff(row[0], tail);
    assert Texts(row) == [row[0].text];
    assert [[row[0].text]] + [] == [[row[0].text]];
  }

  lemma FirstRowGrows(field: string, texts: seq<string>, rows: seq<seq<string>>, more: Option<seq<seq<string>>>)
    requires rows != []
    ensures Some(rows) == WithRow(texts, more) ==> Some([[field] + rows[0]] + rows[1..]) == WithRow([field] + texts, more)
    ensures rows[0] != texts ==> [field] + rows[0] != [field] + texts
  {
    assert ([field] + rows[0])[1..] == rows[0] && ([field] + texts)[1..] == texts;
    if Some(rows) == WithRow(texts, more) { assert rows[1..] == more.value; }
  }

  /** A printed table reads back as itself if and only if every bare cell is plain. */
  lemma {:induction false} TableSurvivesIff(rows: seq<seq<Cell>>)
    requires rows != [] && forall i | 0 <= i < |rows| :: rows[i] != []
    ensures Read(PrintTable(rows)) == Some(AllTexts(rows)) <==> TableOk(rows)
  {
    hide Read, PrintRow, RowOk, ReadField;
    if |rows| == 1 {
      RowSurvivesIff(rows[0], "", Some([]));
      assert PrintRow(rows[0]) + "" == PrintTable(rows);
      assert AllTexts(rows) == [Texts(rows[0])];
    } else {
      var rest := PrintTable(rows[1..]);
      var tail := "\n" + rest;
      assert PrintTable(rows) == PrintRow(rows[0]) + tail && tail[1..] == rest;
      TableSurvivesIff(rows[1..]);
      RowSurvivesIff(rows[0], tail, Read(rest));
      assert TableOk(rows) <==> RowOk(rows[0]) && TableOk(rows[1..]);
      OneMoreRow(Texts(rows[0]), AllTexts(rows[1..]), Read(rest));
      ReadStartsWithField(PrintTable(rows));
    }
  }

  lemma OneMoreRow(texts: seq<string>, others: seq<seq<string>>, more: Option<seq<seq<string>>>)
    ensures WithRow(texts, more) == Some([texts] + others) <==> more == Some(others)
  {
    if more.Some? {
      assert ([texts] + more.value)[1..] == more.value && ([texts] + others)[1..] == others;
    }
  }

  // ---------------------------------------------------------------------------------------------
  // The audit log export.

  datatype LogEntry = LogEntry(
    timestamp: string, logLevel: string, message: string, actionType: string, employer: Option<string>,
    transactionHash: Option<string>, blockNumber: Option<int>, errorMessage: Option<string>)

  function OrEmpty(s: Option<string>): string {
    match s case None => "" case Some(v) => v
  }

  function Headers(): seq<Cell> {
    [Bare("timestamp"), Bare("log_level"), Bare("message"), Bare("action_type"), Bare("employer"),
     Bare("transaction_hash"), Bare("block_number"), Bare("error_message")]
  }

  function LogRow(log: LogEntry): seq<Cell> {
    [Bare(log.timestamp), Bare(log.logLevel), Escaped(log.message), Bare(log.actionType), Bare(OrEmpty(log.employer)),
     Bare(OrEmpty(log.transactionHash)),
     Bare(match log.blockNumber case None => "" case Some(n) => ToDecimal(n)),
     if OrEmpty(log.errorMessage) != "" then Escaped(log.errorMessage.value) else Bare("")]
  }

  function LogRows(logs: seq<LogEntry>): (r: seq<seq<Cell>>)
    ensures |r| == |logs| && forall i | 0 <= i < |logs| :: r[i] == LogRow(logs[i])
  {
    if logs == [] then [] else [LogRow(logs[0])] + LogRows(logs[1..])
  }

  const EMPTY_EXPORT := "timestamp,log_level,message,action_type,employer\n"

  function ConvertToCsv(logs: seq<LogEntry>): string {
    if logs == [] then EMPTY_EXPORT else PrintTable([Headers()] + LogRows(logs))
  }

  predicate RawColumnsPlain(log: LogEntry) {
    Plain(log.timestamp) && Plain(log.logLevel) && Plain(log.actionType)
    && Plain(OrEmpty(log.employer)) && Plain(OrEmpty(log.transactionHash))
  }

  lemma DecimalIsPlain(n: int)
    ensures Plain(ToDecimal(n))
  {
  }

  lemma LogRowOkIff(log: LogEntry)
    ensures RowOk(LogRow(log)) <==> RawColumnsPlain(log)
  {
    var row := LogRow(log);
    if log.blockNumber.Some? { DecimalIsPlain(log.blockNumber.value); }
    assert RowOk(row) ==> CellOk(row[0]) && CellOk(row[1]) && CellOk(row[3]) && CellOk(row[4]) && CellOk(row[5]);
  }

  lemma TimestampIsPlain() ensures Plain("timestamp") {}
  lemma LogLevelIsPlain() ensures Plain("log_level") {}
  lemma MessageIsPlain() ensures Plain("message") {}
  lemma ActionTypeIsPlain() ensures Plain("action_type") {}
  lemma EmployerIsPlain() ensures Plain("employer") {}
  lemma TransactionHashIsPlain() ensures Plain("transaction_hash") {}
  lemma BlockNumberIsPlain() ensures Plain("block_number") {}
  lemma ErrorMessageIsPlain() ensures Plain("error_message") {}

  lemma HeadersAreOk()
    ensures RowOk(Headers()) && Headers() != []
  {
    hide Plain;
    TimestampIsPlain();
    LogLevelIsPlain();
    MessageIsPlain();
    ActionTypeIsPlain();
    EmployerIsPlain();
    TransactionHashIsPlain();
    BlockNumberIsPlain();
    ErrorMessageIsPlain();
  }

  /** The texts of one line of the export, column by column. */
  ghost predicate IsLine(line: seq<string>, log: LogEntry) {
    && |line| == 8 && line[0] == log.timestamp && line[1] == log.logLevel && line[2] == log.message && line[3] == log.actionType
    && line[4] == (if log.employer.Some? then log.employer.value else "")
    && line[5] == (if log.transactionHash.Some? then log.transactionHash.value else "")
    && (if log.blockNumber.Some? then line[6] != "" && line[6] == ToDecimal(log.blockNumber.value) else line[6] == "")
    && line[7] == (if log.errorMessage.Some? then log.errorMessage.value else "")
  }

  /** The header line and a line for each entry. */
  ghost predicate IsExport(rows: seq<seq<string>>, logs: seq<LogEntry>) {
    && |rows| == |logs| + 1
    && rows[0] == ["timestamp", "log_level", "message", "action_type", "employer", "transaction_hash", "block_number", "error_message"]
    && forall i | 0 <= i < |logs| :: IsLine(rows[i + 1], logs[i])
  }

  lemma LineIs(log: LogEntry)
    ensures IsLine(Texts(LogRow(log)), log)
  {
    if log.blockNumber.Some? { SignShows(log.blockNumber.value); }
  }

  lemma {:induction false} AllTextsAt(rows: seq<seq<Cell>>, i: nat)
    requires i < |rows|
    ensures AllTexts(rows)[i] == Texts(rows[i])
  {
    if i > 0 { AllTextsAt(rows[1..], i - 1); }
  }

  lemma ExportIs(logs: seq<LogEntry>)
    ensures IsExport(AllTexts([Headers()] + LogRows(logs)), logs)
  {
    hide Texts, LogRow, IsLine;
    var rows := [Headers()] + LogRows(logs);
    AllTextsAt(rows, 0);
    HeaderTexts();
    forall i | 0 <= i < |logs| ensures IsLine(AllTexts(rows)[i + 1], logs[i]) {
      AllTextsAt(rows, i + 1);
      LineIs(logs[i]);
    }
  }

  lemma HeaderTexts()
    ensures Texts(Headers())
         == ["timestamp", "log_level", "message", "action_type", "employer", "transaction_hash", "block_number", "error_message"]
  {
  }

  lemma LinesAreUnique(rows: seq<seq<string>>, other: seq<seq<string>>, logs: seq<LogEntry>)
    requires IsExport(rows, logs) && IsExport(other, logs)
    ensures rows == other
  {
    forall i | 0 <= i < |rows| ensures rows[i] == other[i] {
      if i > 0 { assert IsLine(rows[i - 1 + 1], logs[i - 1]) && IsLine(other[i - 1 + 1], logs[i - 1]); }
    }
  }

  /** A non-empty export reads back as the header and, for each entry, a line with its fields under their headers, whatever the
      messages and error texts hold, exactly when the columns written without escaping are plain. */
  lemma ExportReadsBackIff(logs: seq<LogEntry>)
    requires logs != []
    ensures (Read(ConvertToCsv(logs)).Some? && IsExport(Read(ConvertToCsv(logs)).value, logs))
      <==> forall i | 0 <= i < |logs| :: RawColumnsPlain(logs[i])
  {
    hide Headers, RawColumnsPlain, Read, ConvertToCsv, AllTexts, LogRow, IsExport;
    ReadsBackIff(logs);
    ExportIs(logs);
    if Read(ConvertToCsv(logs)).Some? && IsExport(Read(ConvertToCsv(logs)).value, logs) {
      LinesAreUnique(Read(ConvertToCsv(logs)).value, AllTexts([Headers()] + LogRows(logs)), logs);
    }
  }

  /** Without entries the export is a shorter header line alone. */
  lemma EmptyExportIs()
    ensures ConvertToCsv([]) == "timestamp,log_level,message,action_type,employer\n"
  {
  }

  lemma ReadsBackIff(logs: seq<LogEntry>)
    requires logs != []
    ensures Read(ConvertToCsv(logs)) == Some(AllTexts([Headers()] + LogRows(logs)))
      <==> forall i | 0 <= i < |logs| :: RawColumnsPlain(logs[i])
  {
    hide Headers, RawColumnsPlain, TableOk, Read, PrintTable, AllTexts, LogRow;
    var rows := [Headers()] + LogRows(logs);
    HeadersAreOk();
    assert rows[1..] == LogRows(logs);
    FirstRowOk(rows);
    LogRowsOkIff(logs);
    LogRowsNonempty(logs);
    TableSurvivesIff(rows);
  }

  lemma FirstRowOk(rows: seq<seq<Cell>>)
    requires rows != [] && RowOk(rows[0])
    ensures TableOk(rows) <==> TableOk(rows[1..])
  {
    hide RowOk;
    if TableOk(rows) { assert forall i | 0 <= i < |rows[1..]| :: rows[1..][i] == rows[i + 1]; }
    if TableOk(rows[1..]) {
      forall i | 0 <= i < |rows| ensures RowOk(rows[i]) { if i > 0 { assert rows[i] == rows[1..][i - 1]; } }
    }
  }

  lemma LogRowsNonempty(logs: seq<LogEntry>)
    ensures forall i | 0 <= i < |logs| :: LogRows(logs)[i] != []
  {
  }

  lemma LogRowsOkIff(logs: seq<LogEntry>)
    ensures TableOk(LogRows(logs)) <==> forall i | 0 <= i < |logs| :: RawColumnsPlain(logs[i])
  {
    hide RowOk, RawColumnsPlain, LogRow;
    forall i | 0 <= i < |logs| ensures RowOk(LogRows(logs)[i]) <==> RawColumnsPlain(logs[i]) { LogRowOkIff(logs[i]); }
  }
}
