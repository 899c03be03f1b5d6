/**
 The panel's CSV printer, and a reader that follows the grammar of section 2 of RFC 4180
 with the delimiter as a parameter.
 */
module Csv {
  import opened Basics

  const QUOTE := '\"'
  const CRLF := "\r\n"

  predicate IsDelimiter(d: char) { d != QUOTE && d != '\r' && d != '\n' }

  // ---------------------------------------------------------------------------
  // Printing.

  predicate IsSpecial(d: char, c: char) { c == QUOTE || c == d || c == '\r' || c == '\n' }

  predicate NeedsQuotes(d: char, s: string) {
    exists i :: 0 <= i < |s| && IsSpecial(d, s[i])
  }

  /** s.replace(/"/g, '""') */
  function Doubled(s: string): string {
    if s == [] then [] else (if s[0] == QUOTE then [QUOTE, QUOTE] else [s[0]]) + Doubled(s[1..])
  }

  function Escape(d: char, s: string): string {
    if NeedsQuotes(d, s) then [QUOTE] + Doubled(s) + [QUOTE] else s
  }

  function PrintRow(d: char, cells: seq<string>): string {
    if cells == [] then "" else
    if |cells| == 1 then Escape(d, cells[0]) else Escape(d, cells[0]) + [d] + PrintRow(d, cells[1..])
  }

  function Print(d: char, table: seq<seq<string>>): string {
    if table == [] then "" else
    if |table| == 1 then PrintRow(d, table[0]) else PrintRow(d, table[0]) + CRLF + Print(d, table[1..])
  }

  // ---------------------------------------------------------------------------
  // Reading.

  datatype Parsed<T> = Failed | Read(value: T, rest: string)

  predicate StartsWith(s: string, c: char) { s != [] && s[0] == c }

  /** non-escaped = *TEXTDATA */
  function ReadPlain(d: char, s: string): (p: Parsed<string>)
    ensures p.Read? && |p.rest| <= |s|
  {
    if s == [] || IsSpecial(d, s[0]) then Read("", s) else
    var tail := ReadPlain(d, s[1..]);
    Read([s[0]] + tail.value, tail.rest)
  }

  /** The rest of an escaped field, behind its opening quote. */
  function ReadQuoted(s: string): (p: Parsed<string>)
    ensures p.Read? ==> |p.rest| < |s|
  {
    if s == [] then Failed else
    if s[0] == QUOTE && !StartsWith(s[1..], QUOTE) then Read("", s[1..]) else
    Behind(s[0], if s[0] == QUOTE then ReadQuoted(s[2..]) else ReadQuoted(s[1..]))
  }

  function Behind(c: char, p: Parsed<string>): Parsed<string> {
    match p
    case Failed => Failed
    case Read(value, rest) => Read([c] + value, rest)
  }

  /** field = (escaped / non-escaped) */
  function ReadField(d: char, s: string): (p: Parsed<string>)
    ensures p.Read? ==> |p.rest| <= |s|
  {
    if StartsWith(s, QUOTE) then ReadQuoted(s[1..]) else ReadPlain(d, s)
  }

  /** record = field *(COMMA field) */
  function ReadRow(d: char, s: string): (p: Parsed<seq<string>>)
    ensures p.Read? ==> |p.rest| <= |s|
    decreases |s|
  {
    match ReadField(d, s)
    case Failed => Failed
    case Read(cell, rest) =>
      if !StartsWith(rest, d) then Read([cell], rest) else
      match ReadRow(d, rest[1..])
      case Failed => Failed
      case Read(cells, rest') => Read([cell] + cells, rest')
  }

  /** file = record *(CRLF record) [CRLF] */
  function ReadTable(d: char, s: string): Option<seq<seq<string>>>
    decreases |s|
  {
    match ReadRow(d, s)
    case Failed => None
    case Read(row, rest) =>
      if rest == [] || rest == CRLF then Some([row]) else
      if !(CRLF <= rest) then None else
      match ReadTable(d, rest[2..])
      case None => None
      case Some(rows) => Some([row] + rows)
  }

  // ---------------------------------------------------------------------------
  // Round trip.

  /** What may follow a field: the end, the delimiter or a line break. */
  predicate EndsField(d: char, rest: string) {
    rest == [] || rest[0] == d || rest[0] == '\r'
  }

  /** How the reader of an escaped field takes its next step. */
  lemma QuotedStep(c: char, tail: string)
    ensures c != QUOTE ==> ReadQuoted([c] + tail) == Behind(c, ReadQuoted(tail))
    ensures ReadQuoted([QUOTE, QUOTE] + tail) == Behind(QUOTE, ReadQuoted(tail))
    ensures !StartsWith(tail, QUOTE) ==> ReadQuoted([QUOTE] + tail) == Read("", tail)
  {
    assert ([c] + tail)[1..] == tail && ([QUOTE] + tail)[1..] == tail;
    assert ([QUOTE, QUOTE] + tail)[2..] == tail && ([QUOTE, QUOTE] + tail)[1..] == [QUOTE] + tail;
  }

  lemma {:induction false} QuotedReadsBack(s: string, rest: string)
    requires !StartsWith(rest, QUOTE)
    ensures ReadQuoted(Doubled(s) + ([QUOTE] + rest)) == Read(s, rest)
  {
    if s == [] {
      QuotedStep(QUOTE, rest);
      assert Doubled(s) + ([QUOTE] + rest) == [QUOTE] + rest;
    } else {
      var head := if s[0] == QUOTE then [QUOTE, QUOTE] else [s[0]];
      assert Doubled(s) == head + Doubled(s[1..]);
      QuotedReadsBack(s[1..], rest);
      hide Doubled, ReadQuoted;
      Associate(head, Doubled(s[1..]), [QUOTE] + rest);
      QuotedStep(s[0], Doubled(s[1..]) + ([QUOTE] + rest));
      assert s == [s[0]] + s[1..];
    }
  }

  lemma Associate(s: string, t: string, u: string)
    ensures (s + t) + u == s + (t + u)
  {
  }

  lemma {:induction false} PlainReadsBack(d: char, s: string, rest: string)
    requires !NeedsQuotes(d, s) && EndsField(d, rest)
    ensures ReadPlain(d, s + rest) == Read(s, rest)
  {
    if s == [] {
      assert s + rest == rest;
    } else {
      assert (s + rest)[1..] == s[1..] + rest;
      assert !IsSpecial(d, s[0]);
      assert forall i | 0 <= i < |s[1..]| :: !IsSpecial(d, s[1..][i]) by {
        assert forall i | 0 <= i < |s[1..]| :: s[1..][i] == s[i + 1];
      }
      PlainReadsBack(d, s[1..], rest);
      assert s == [s[0]] + s[1..];
    }
  }

  /** Quotes go only around fields that need them. */
  lemma PlainFieldsStay(d: char, s: string)
    ensures Escape(d, s) == s <==> forall c | c in s :: c != d && c != QUOTE && c != '\r' && c != '\n'
  {
    if NeedsQuotes(d, s) {
      var i :| 0 <= i < |s| && IsSpecial(d, s[i]);
      DoubledIsLonger(s);
      assert s[i] in s && |Escape(d, s)| > |s|;
    } else {
      assert forall i | 0 <= i < |s| :: !IsSpecial(d, s[i]);
    }
  }

  lemma {:induction false} DoubledIsLonger(s: string)
    ensures |Doubled(s)| >= |s|
  {
    if s == [] {
    } else {
      DoubledIsLonger(s[1..]);
    }
  }

  lemma FieldReadsBack(d: char, s: string, rest: string)
    requires IsDelimiter(d) && EndsField(d, rest)
    ensures ReadField(d, Escape(d, s) + rest) == Read(s, rest)
  {
    hide ReadQuoted, ReadPlain, Doubled;
    if NeedsQuotes(d, s) {
      QuotedReadsBack(s, rest);
      assert Escape(d, s) + rest == [QUOTE] + (Doubled(s) + ([QUOTE] + rest));
    } else {
      PlainReadsBack(d, s, rest);
      if s != [] {
        assert !IsSpecial(d, s[0]);
      }
    }
  }

  lemma {:induction false} RowReadsBack(d: char, cells: seq<string>, rest: string)
    requires IsDelimiter(d) && cells != [] && (rest == [] || CRLF <= rest)
    ensures ReadRow(d, PrintRow(d, cells) + rest) == Read(cells, rest)
  {
    hide ReadField, Escape;
    var text := PrintRow(d, cells) + rest;
    if |cells| == 1 {
      FieldReadsBack(d, cells[0], rest);
      assert cells == [cells[0]];
    } else {
      var tail := [d] + (PrintRow(d, cells[1..]) + rest);
      assert text == Escape(d, cells[0]) + tail;
      FieldReadsBack(d, cells[0], tail);
      RowReadsBack(d, cells[1..], rest);
      assert tail[1..] == PrintRow(d, cells[1..]) + rest;
      assert cells == [cells[0]] + cells[1..];
    }
  }

  /** Only a row with a single empty cell prints as nothing. */
  lemma RowPrintsSomething(d: char, cells: seq<string>)
    requires cells != []
    ensures PrintRow(d, cells) == "" <==> cells == [""]
  {
    if |cells| == 1 {
      assert cells == [cells[0]];
    }
  }

  lemma {:induction false} PrintIsEmpty(d: char, table: seq<seq<string>>)
    requires table != [] && forall i | 0 <= i < |table| :: table[i] != []
    ensures Print(d, table) == "" <==> table == [[""]]
  {
    RowPrintsSomething(d, table[0]);
    if |table| == 1 {
      assert table == [table[0]];
    }
  }

  /** What the reader makes of a printed table: an empty last row is taken for the final line break. */
  function Reread(table: seq<seq<string>>): seq<seq<string>> {
    if LosesLastRow(table) then table[..|table| - 1] else table
  }

  predicate LosesLastRow(table: seq<seq<string>>) {
    |table| > 1 && table[|table| - 1] == [""]
  }

  /** How the reader of a table takes its next step. */
  lemma TableStep(d: char, row: seq<string>, more: string)
    requires IsDelimiter(d) && row != []
    ensures ReadTable(d, PrintRow(d, row)) == Some([row])
    ensures more == "" ==> ReadTable(d, PrintRow(d, row) + (CRLF + more)) == Some([row])
    ensures more != "" && ReadTable(d, more).Some? ==>
              ReadTable(d, PrintRow(d, row) + (CRLF + more)) == Some([row] + ReadTable(d, more).value)
  {
    hide ReadRow, PrintRow;
    RowReadsBack(d, row, "");
    RowReadsBack(d, row, CRLF + more);
    assert PrintRow(d, row) + "" == PrintRow(d, row);
    assert (CRLF + more)[2..] == more;
    assert more == "" <==> CRLF + more == CRLF;
  }

  lemma {:induction false} TableRereads(d: char, table: seq<seq<string>>)
    requires IsDelimiter(d) && table != [] && forall i | 0 <= i < |table| :: table[i] != []
    ensures ReadTable(d, Print(d, table)) == Some(Reread(table))
  {
    hide ReadTable, PrintRow;
    if |table| == 1 {
      TableStep(d, table[0], "");
      assert table == [table[0]];
    } else {
      var more := Print(d, table[1..]);
      assert Print(d, table) == PrintRow(d, table[0]) + (CRLF + more);
      TableStep(d, table[0], more);
      PrintIsEmpty(d, table[1..]);
      if table[1..] == [[""]] {
        assert table[..1] == [table[0]] && table[1] == table[1..][0];
      } else {
        TableRereads(d, table[1..]);
        RereadSplits(table);
      }
    }
  }

  lemma RereadSplits(table: seq<seq<string>>)
    requires |table| > 1 && table[1..] != [[""]]
    ensures Reread(table) == [table[0]] + Reread(table[1..])
  {
    var tail := table[1..];
    assert tail[|tail| - 1] == table[|table| - 1];
    if |table| == 2 {
      assert tail == [table[1]];
    }
    assert table == [table[0]] + tail;
    assert table[..|table| - 1] == [table[0]] + tail[..|tail| - 1];
  }

  /** A printed table is read back whole exactly when it does not end in a row of one empty cell. */
  lemma RoundTrip(d: char, table: seq<seq<string>>)
    requires IsDelimiter(d) && table != [] && forall i | 0 <= i < |table| :: table[i] != []
    ensures ReadTable(d, Print(d, table)) == Some(table) <==> !LosesLastRow(table)
  {
    TableRereads(d, table);
  }

  // ---------------------------------------------------------------------------
  // The two exports.

  datatype DashboardEvent = DashboardEvent(id: string, employee: Option<string>, status: string, distance: string, when: string)

  datatype ReportEvent = ReportEvent(id: string, when: string, status: string, employee: Option<string>, distance: Option<string>)

  const DASHBOARD_HEADER: seq<string> := ["ID", "Funcion\U{E1}rio", "Status", "Dist\U{E2}ncia", "Data/Hora"]

  const REPORT_HEADER: seq<string> := ["id", "timestamp", "status", "employee", "distance"]

  function DashboardRow(e: DashboardEvent): seq<string> {
    [e.id, if e.employee.Some? then e.employee.value else "Desconhecido", e.status, e.distance, e.when]
  }

  function ReportRow(e: ReportEvent): seq<string> {
    [e.id, e.when, e.status, if e.employee.Some? then e.employee.value else "",
     if e.distance.Some? then e.distance.value else ""]
  }

  function DashboardTable(events: seq<DashboardEvent>): seq<seq<string>> {
    [DASHBOARD_HEADER] + seq(|events|, i requires 0 <= i < |events| => DashboardRow(events[i]))
  }

  function ReportTable(events: seq<ReportEvent>): seq<seq<string>> {
    [REPORT_HEADER] + seq(|events|, i requires 0 <= i < |events| => ReportRow(events[i]))
  }

  const BYTE_ORDER_MARK := '\U{FEFF}'

  function DashboardFile(events: seq<DashboardEvent>): string {
    [BYTE_ORDER_MARK] + Print(';', DashboardTable(events))
  }

  function ReportFile(events: seq<ReportEvent>): string {
    Print(',', ReportTable(events))
  }

  /** The row says of the event, column by column: number, name, status, distance and time. */
  ghost predicate TellsDashboard(row: seq<string>, e: DashboardEvent) {
    && |row| == 5 && row[0] == e.id
    && (e.employee.Some? ==> row[1] == e.employee.value) && (e.employee.None? ==> row[1] == "Desconhecido")
    && row[2] == e.status && row[3] == e.distance && row[4] == e.when
  }

  /** The same of the report's columns: number, time, status, name and distance. */
  ghost predicate TellsReport(row: seq<string>, e: ReportEvent) {
    && |row| == 5 && row[0] == e.id && row[1] == e.when && row[2] == e.status
    && (e.employee.Some? ==> row[3] == e.employee.value) && (e.employee.None? ==> row[3] == "")
    && (e.distance.Some? ==> row[4] == e.distance.value) && (e.distance.None? ==> row[4] == "")
  }

  lemma DashboardTableTells(events: seq<DashboardEvent>)
    ensures var table := DashboardTable(events);
            && |table| == |events| + 1 && table[0] == DASHBOARD_HEADER
            && (forall i | 0 <= i < |events| :: TellsDashboard(table[i + 1], events[i]))
            && forall i | 0 <= i < |table| :: |table[i]| == 5
  {
  }

  lemma ReportTableTells(events: seq<ReportEvent>)
    ensures var table := ReportTable(events);
            && |table| == |events| + 1 && table[0] == REPORT_HEADER
            && (forall i | 0 <= i < |events| :: TellsReport(table[i + 1], events[i]))
            && forall i | 0 <= i < |table| :: |table[i]| == 5
  {
  }

  /** Behind its byte order mark, the dashboard's file holds its header and its events, whatever the names contain. */
  lemma DashboardReadsBack(events: seq<DashboardEvent>)
    ensures DashboardFile(events)[0] == BYTE_ORDER_MARK
    ensures var table := ReadTable(';', DashboardFile(events)[1..]);
            && table == Some(DashboardTable(events))
            && |table.value| == |events| + 1 && table.value[0] == DASHBOARD_HEADER
            && forall i | 0 <= i < |events| :: TellsDashboard(table.value[i + 1], events[i])
  {
    var table := DashboardTable(events);
    assert DashboardFile(events)[1..] == Print(';', table);
    DashboardTableTells(events);
    hide Print, ReadTable, DashboardTable, TellsDashboard;
    RoundTrip(';', table);
  }

  lemma ReportReadsBack(events: seq<ReportEvent>)
    ensures var table := ReadTable(',', ReportFile(events));
            && table == Some(ReportTable(events))
            && |table.value| == |events| + 1 && table.value[0] == REPORT_HEADER
            && forall i | 0 <= i < |events| :: TellsReport(table.value[i + 1], events[i])
  {
    var table := ReportTable(events);
    ReportTableTells(events);
    hide Print, ReadTable, ReportTable, TellsReport;
    RoundTrip(',', table);
  }
}
