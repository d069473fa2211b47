/** Reading the index: filtered pages, facet lists and reads by ID, against the full scan of the log. */
module TraceQuery {
  import opened Hashing
  import opened Options
  import Sequences
  import opened TraceLog
  import opened TraceIndex
  import Text

  datatype Entry = Entry(traceId: nat, trace: Trace)

  datatype Filter = Filter(nodeId: Option<Text.Units>, modelId: Option<Text.Units>, protocolId: Option<Text.Units>,
      outcome: Option<Text.Units>, activity: Option<Text.Units>)

  const NO_FILTER := Filter(None, None, None, None, None)

  datatype Result<T> = Ok(value: T) | Corrupt(reason: string) | BadLog

  /** `a.includes(b)`, and SQLite's `instr(a, b) > 0`. */
  predicate Contains(text: Text.Units, part: Text.Units) {
    exists i {:trigger text[i..]} :: 0 <= i <= |text| && part <= text[i..]
  }

  predicate Selects(wanted: Option<Text.Units>, value: Text.Units) { wanted.None? || wanted.value == value }

  /** `matches`: the filter on a trace. */
  predicate Matches(t: Trace, f: Filter) {
    && Selects(f.nodeId, t.nodeId) && Selects(f.modelId, t.modelId) && Selects(f.protocolId, t.protocolId)
    && Selects(f.outcome, t.outcome) && (f.activity.None? || Contains(t.activityId, f.activity.value))
  }

  /** The WHERE clause: the filter on the columns of a row. */
  predicate RowMatches(row: Row, f: Filter) {
    && Selects(f.nodeId, row.nodeId) && Selects(f.modelId, row.modelId) && Selects(f.protocolId, row.protocolId)
    && Selects(f.outcome, row.outcome) && (f.activity.None? || Contains(row.activityId, f.activity.value))
  }

  /** The text occurs whole somewhere. */
  lemma ContainsIff(text: Text.Units, part: Text.Units)
    ensures Contains(text, part) <==> exists before, after :: text == before + part + after
  {
    if Contains(text, part) {
      var i :| 0 <= i <= |text| && part <= text[i..];
      assert text == text[..i] + part + text[i + |part|..];
    }
    if exists before, after :: text == before + part + after {
      var before, after :| text == before + part + after;
      assert text[|before|..] == part + after;
    }
  }

  /** A filter keeps a trace exactly when each column it names has the value it names, and
      the activity's ID holds the text asked for; and a row exactly when its columns do. */
  lemma MatchesIff(t: Trace, row: Row, f: Filter)
    ensures Matches(t, f) <==>
            && (f.nodeId.Some? ==> f.nodeId.value == t.nodeId) && (f.modelId.Some? ==> f.modelId.value == t.modelId)
            && (f.protocolId.Some? ==> f.protocolId.value == t.protocolId)
            && (f.outcome.Some? ==> f.outcome.value == t.outcome)
            && (f.activity.Some? ==> exists before, after :: t.activityId == before + f.activity.value + after)
    ensures t.nodeId == row.nodeId && t.modelId == row.modelId && t.protocolId == row.protocolId
            && t.outcome == row.outcome && t.activityId == row.activityId ==>
              (RowMatches(row, f) <==> Matches(t, f))
  {
    hide Contains;
    if f.activity.Some? {
      ContainsIff(t.activityId, f.activity.value);
    }
  }

  // ----- The specification: filter and slice over the full scan

  /** The lines the full scan finds in what a process that saw `size` bytes can read. */
  function Scan(log: Bytes, size: nat): seq<Bytes> { ScannedLines(log[..Visible(log, size)]) }

  predicate ScanParses(texts: seq<Bytes>, parse: Parser) {
    forall i {:trigger texts[i]} :: 0 <= i < |texts| ==> parse(texts[i]).Some?
  }

  /** The traces of the full scan that match, with their IDs, in log order. */
  function Matching(texts: seq<Bytes>, parse: Parser, f: Filter): seq<Entry> {
    if texts == [] then []
    else
      var n := |texts| - 1;
      var t := TraceOfText(texts[n], parse);
      Matching(texts[..n], parse, f) + if Matches(t, f) then [Entry(n, t)] else []
  }

  /** `items.slice(offset, offset + limit)`. */
  function Page<T>(items: seq<T>, offset: nat, limit: nat): (page: seq<T>)
    ensures forall k :: 0 <= k < limit && offset + k < |items| ==> k < |page| && page[k] == items[offset + k]
    ensures |page| <= limit && (page != [] ==> offset + |page| <= |items|)
  {
    if offset >= |items| then [] else if offset + limit <= |items| then items[offset..offset + limit]
    else items[offset..]
  }

  datatype Column = Node | Model | Protocol

  function ValueOf(t: Trace, column: Column): Text.Units {
    match column case Node => t.nodeId case Model => t.modelId case Protocol => t.protocolId
  }

  /** The values of one column over the full scan, each once, in code-unit order. */
  ghost predicate IsFacet(values: seq<Text.Units>, texts: seq<Bytes>, column: Column, parse: Parser) {
    && (forall i, j :: 0 <= i < j < |values| ==> Text.Less(values[i], values[j]))
    && (forall v :: v in values <==> v in ScannedValues(texts, column, parse))
  }

  ghost function ScannedValues(texts: seq<Bytes>, column: Column, parse: Parser): set<Text.Units> {
    set i | 0 <= i < |texts| :: ValueOf(TraceOfText(texts[i], parse), column)
  }

  // ----- The rows a query selects

  function SelectRows(rows: seq<Row>, f: Filter): seq<Row> {
    if rows == [] then []
    else
      var n := |rows| - 1;
      SelectRows(rows[..n], f) + if RowMatches(rows[n], f) then [rows[n]] else []
  }

  /** `WHERE trace_id >= offset ORDER BY trace_id LIMIT limit`. */
  function SeekRows(rows: seq<Row>, offset: nat, limit: nat): seq<Row> {
    Page(FromId(rows, offset), 0, limit)
  }

  function FromId(rows: seq<Row>, offset: nat): seq<Row> {
    if rows == [] then []
    else
      var n := |rows| - 1;
      FromId(rows[..n], offset) + if rows[n].traceId >= offset then [rows[n]] else []
  }

  /** The entries that rows stand for. */
  ghost predicate StandFor(rows: seq<Row>, entries: seq<Entry>, lines: seq<Line>, parse: Parser) {
    && |rows| == |entries|
    && forall i {:trigger rows[i]} {:trigger entries[i]} :: 0 <= i < |rows| ==>
         && rows[i].traceId < |lines|
         && rows[i] == RowFor(rows[i].traceId, lines[rows[i].traceId], TraceOf(lines[rows[i].traceId], parse))
         && entries[i] == Entry(rows[i].traceId, TraceOf(lines[rows[i].traceId], parse))
  }

  lemma RowMatchesItsTrace(id: nat, line: Line, t: Trace, f: Filter)
    ensures RowMatches(RowFor(id, line, t), f) == Matches(t, f)
  {
  }

  /** The texts of the lines, in order. */
  ghost predicate SameTexts(texts: seq<Bytes>, lines: seq<Line>) {
    |texts| == |lines| && forall i {:trigger texts[i]} {:trigger lines[i]} :: 0 <= i < |texts| ==>
        texts[i] == lines[i].text
  }

  lemma {:induction false} TextsAreSame(lines: seq<Line>)
    ensures SameTexts(TextsOf(lines), lines)
  {
    if lines != [] {
      TextsAreSame(lines[..|lines| - 1]);
    }
  }

  /** The rows the WHERE clause selects stand for the traces of the full scan that match. */
  lemma {:induction false} SelectionMatches(rows: seq<Row>, lines: seq<Line>, texts: seq<Bytes>, all: seq<Line>,
      f: Filter, parse: Parser)
    requires RowsMatch(rows, lines, parse) && SameTexts(texts, lines) && lines <= all
    ensures StandFor(SelectRows(rows, f), Matching(texts, parse, f), all, parse)
  {
    if rows != [] {
      var n := |rows| - 1;
      assert RowsMatch(rows[..n], lines[..n], parse) && SameTexts(texts[..n], lines[..n]);
      SelectionMatches(rows[..n], lines[..n], texts[..n], all, f, parse);
      assert texts[n] == lines[n].text;
      RowMatchesItsTrace(n, lines[n], TraceOf(lines[n], parse), f);
      assert rows[n] == RowFor(n, lines[n], TraceOf(lines[n], parse)) && lines[n] == all[n];
    }
  }

  lemma {:induction false} NoFilterSelectsAll(rows: seq<Row>)
    ensures SelectRows(rows, NO_FILTER) == rows
  {
    if rows != [] {
      NoFilterSelectsAll(rows[..|rows| - 1]);
    }
  }

  lemma SliceAppend<T>(items: seq<T>, from: nat)
    requires from < |items|
    ensures items[..|items| - 1][from..] + [items[|items| - 1]] == items[from..]
  {
  }

  /** IDs are dense, so an unfiltered page may seek to its first ID. */
  lemma {:induction false} SeekIsSlice(rows: seq<Row>, offset: nat)
    requires forall i :: 0 <= i < |rows| ==> rows[i].traceId == i
    ensures FromId(rows, offset) == if offset >= |rows| then [] else rows[offset..]
  {
    if rows != [] {
      var n := |rows| - 1;
      SeekIsSlice(rows[..n], offset);
      if offset <= n {
        SliceAppend(rows, offset);
      }
    }
  }

  lemma PagesStandFor(rows: seq<Row>, entries: seq<Entry>, lines: seq<Line>, parse: Parser, offset: nat, limit: nat)
    requires StandFor(rows, entries, lines, parse)
    ensures StandFor(Page(rows, offset, limit), Page(entries, offset, limit), lines, parse)
  {
  }

  // ----- Reading a row back from the log

  /** The session's `read`: the row's range must hold a whole line,
      and the line's trace must agree with the row's columns. */
  function Read(log: Bytes, committed: nat, row: Row, parse: Parser): Result<Entry> {
    var start := if row.offset == 0 then 0 else row.offset - 1;
    var bytes := ReadRange(log, start, row.offset + row.length - start);
    if || row.offset + row.length > committed || |bytes| != row.offset + row.length - start
       || (row.offset > 0 && (bytes == [] || bytes[0] != NEWLINE)) || bytes == [] || bytes[|bytes| - 1] != NEWLINE
    then Corrupt("ROW_RANGE")
    else
      var parsed := parse(if row.offset - start < |bytes| then bytes[row.offset - start..|bytes| - 1] else []);
      if parsed.None? then BadLog
      else
        var t := parsed.value;
        if || t.nodeId != row.nodeId || t.modelId != row.modelId || t.protocolId != row.protocolId
           || t.outcome != row.outcome || t.activityId != row.activityId
        then Corrupt("ROW_COLUMNS")
        else Ok(Entry(row.traceId, t))
  }

  /** A row is read exactly when its range is a whole line that
      was caught up to, and the line's trace has its columns. */
  lemma ReadIff(log: Bytes, committed: nat, row: Row, parse: Parser, t: Trace)
    requires parse([]).None?
    ensures Read(log, committed, row, parse) == Ok(Entry(row.traceId, t)) <==>
            && row.length > 0 && row.offset + row.length <= committed && row.offset + row.length <= |log|
            && (row.offset > 0 ==> log[row.offset - 1] == NEWLINE) && log[row.offset + row.length - 1] == NEWLINE
            && parse(log[row.offset..row.offset + row.length - 1]) == Some(t)
            && t.nodeId == row.nodeId && t.modelId == row.modelId && t.protocolId == row.protocolId
            && t.outcome == row.outcome && t.activityId == row.activityId
  {
    var start := if row.offset == 0 then 0 else row.offset - 1;
    var bytes := ReadRange(log, start, row.offset + row.length - start);
    if row.offset + row.length <= |log| && row.length > 0 {
      assert bytes == log[start..row.offset + row.length];
      var stop := row.offset + row.length;
      Sequences.SliceOfSlice(log, start, stop, row.offset - start, stop - 1 - start);
    }
  }

  lemma StandingText(log: Bytes, end: nat, line: Line)
    requires StandsIn(log, line, end)
    ensures log[line.offset..line.offset + |line.text|] == line.text && log[line.offset + |line.text|] == NEWLINE
  {
    var whole := log[line.offset..line.offset + |line.text| + 1];
    assert whole[..|line.text|] == line.text;
    assert whole[|line.text|] == NEWLINE;
  }

  lemma ReadBytes(log: Bytes, end: nat, line: Line, start: nat)
    requires StandsIn(log, line, end) && start == if line.offset == 0 then 0 else line.offset - 1
    ensures var bytes := ReadRange(log, start, line.offset + |line.text| + 1 - start);
            && |bytes| == line.offset + |line.text| + 1 - start && bytes[|bytes| - 1] == NEWLINE
            && (line.offset > 0 ==> bytes[0] == NEWLINE)
            && bytes[line.offset - start..|bytes| - 1] == line.text
  {
    var stop := line.offset + |line.text| + 1;
    StandingText(log, end, line);
    Sequences.SliceOfSlice(log, start, stop, line.offset - start, stop - 1 - start);
  }

  /** A row of the index reads back as the trace of the full scan under the same ID. */
  lemma ReadsBack(log: Bytes, end: nat, id: nat, line: Line, parse: Parser)
    requires StandsIn(log, line, end) && parse(line.text).Some?
    ensures Read(log, end, RowFor(id, line, TraceOf(line, parse)), parse) == Ok(Entry(id, TraceOf(line, parse)))
  {
    ReadBytes(log, end, line, if line.offset == 0 then 0 else line.offset - 1);
  }

  // ----- The scan and the lines

  /** The lines a synchronised index covers are those the full scan finds, in the same order. */
  lemma LinesAreTheScan(log: Bytes, size: nat)
    ensures SameTexts(Scan(log, size), Lines(log, Reachable(log, size)))
  {
    var seen := log[..Visible(log, size)];
    LinesMatchTheScan(seen);
    assert seen[..Reachable(log, size)] == log[..Reachable(log, size)];
    LinesOfPrefix(seen, log, Reachable(log, size));
    TextsAreSame(Lines(log, Reachable(log, size)));
  }

  lemma SameTextsParse(texts: seq<Bytes>, lines: seq<Line>, parse: Parser)
    requires SameTexts(texts, lines)
    ensures ScanParses(texts, parse) <==> AllParse(lines, parse)
  {
  }

  // ----- Facets

  lemma CountAtLeastTwo(items: seq<Text.Units>, i: nat, j: nat)
    requires i < j < |items| && items[i] == items[j]
    ensures multiset(items)[items[i]] >= 2
  {
    assert items == items[..j] + [items[j]] + items[j + 1..];
    assert items[i] in items[..j];
  }

  /** A set of values as a list in code-unit order, whatever order the table returns them in. */
  method SortedValues(values: set<Text.Units>) returns (sorted: seq<Text.Units>)
    ensures forall i, j :: 0 <= i < j < |sorted| ==> Text.Less(sorted[i], sorted[j])
    ensures forall v :: v in sorted <==> v in values
  {
    var list: seq<Text.Units>, rest := [], values;
    while rest != {}
      invariant rest <= values && multiset(list) == multiset(values - rest)
    {
      var v :| v in rest;
      assert values - (rest - {v}) == (values - rest) + {v};
      list, rest := list + [v], rest - {v};
    }
    assert values - {} == values;
    sorted := Text.Sort(list);
    Text.SortSorts(list);
    forall v ensures v in sorted <==> v in values {
      assert v in sorted <==> v in multiset(sorted);
    }
    forall i, j | 0 <= i < j < |sorted| ensures Text.Less(sorted[i], sorted[j]) {
      assert multiset(values)[sorted[i]] <= 1;
      if sorted[i] == sorted[j] {
        CountAtLeastTwo(sorted, i, j);
      }
    }
  }

  function ColumnOf(f: Facets, column: Column): set<Text.Units> {
    match column case Node => f.nodes case Model => f.models case Protocol => f.protocols
  }

  lemma FacetsAreScanned(rows: seq<Row>, lines: seq<Line>, texts: seq<Bytes>, column: Column, parse: Parser)
    requires RowsMatch(rows, lines, parse) && SameTexts(texts, lines)
    ensures ColumnOf(FacetsOf(rows), column) == ScannedValues(texts, column, parse)
  {
    forall i | 0 <= i < |rows| ensures rows[i] == RowFor(i, lines[i], TraceOfText(texts[i], parse)) {
      assert texts[i] == lines[i].text;
    }
    assert FacetsOf(rows).nodes == ScannedValues(texts, Node, parse);
    assert FacetsOf(rows).models == ScannedValues(texts, Model, parse);
    assert FacetsOf(rows).protocols == ScannedValues(texts, Protocol, parse);
  }

  // ----- Queries

  datatype QueryPage = QueryPage(entries: seq<Entry>, total: nat, nodes: seq<Text.Units>, models: seq<Text.Units>,
      protocols: seq<Text.Units>)

  lemma StandingRowReads(log: Bytes, end: nat, rows: seq<Row>, entries: seq<Entry>, i: nat, parse: Parser)
    requires Boundary(log, end) && AllParse(Lines(log, end), parse)
    requires StandFor(rows, entries, Lines(log, end), parse) && i < |rows|
    ensures Read(log, end, rows[i], parse) == Ok(entries[i])
  {
    hide Lines, Read, StandsIn;
    var id := rows[i].traceId;
    LinesStand(log, end);
    ReadsBack(log, end, id, Lines(log, end)[id], parse);
  }

  function Failure<T, U>(r: Result<T>): Result<U> { if r.Corrupt? then Corrupt(r.reason) else BadLog }

  /** Reads the selected rows back from the log. */
  method ReadRows(log: Bytes, end: nat, rows: seq<Row>, f: Filter, parse: Parser, ghost wanted: seq<Entry>)
    returns (r: Result<seq<Entry>>)
    requires Boundary(log, end) && AllParse(Lines(log, end), parse) && StandFor(rows, wanted, Lines(log, end), parse)
    requires forall i :: 0 <= i < |wanted| ==> Matches(wanted[i].trace, f)
    ensures r == Ok(wanted)
  {
    hide Lines, Read, AllParse, StandFor, Matches;
    SameLength(rows, wanted, Lines(log, end), parse);
    var entries := [];
    for i := 0 to |rows|
      invariant entries == wanted[..i]
    {
      StandingRowReads(log, end, rows, wanted, i, parse);
      var entry := Read(log, end, rows[i], parse);
      if !entry.Ok? {
        return Failure(entry);
      }
      if !Matches(entry.value.trace, f) {
        return Corrupt("FILTER_MISMATCH");
      }
      entries := entries + [entry.value];
    }
    assert wanted[..|rows|] == wanted;
    r := Ok(entries);
  }

  lemma SameLength(rows: seq<Row>, entries: seq<Entry>, lines: seq<Line>, parse: Parser)
    requires StandFor(rows, entries, lines, parse)
    ensures |rows| == |entries|
  {
  }

  lemma {:induction false} MatchingMatch(texts: seq<Bytes>, parse: Parser, f: Filter)
    ensures forall i :: 0 <= i < |Matching(texts, parse, f)| ==> Matches(Matching(texts, parse, f)[i].trace, f)
  {
    hide Matches;
    if texts != [] {
      MatchingMatch(texts[..|texts| - 1], parse, f);
    }
  }

  lemma RowsAreDense(rows: seq<Row>, lines: seq<Line>, parse: Parser, offset: nat)
    requires RowsMatch(rows, lines, parse)
    ensures FromId(rows, offset) == if offset >= |rows| then [] else rows[offset..]
    ensures |rows| == |lines|
  {
    SeekIsSlice(rows, offset);
  }

  /** The rows of one page: an unfiltered page seeks, a filtered one counts and skips. */
  method SelectPage(db: Db, f: Filter, offset: nat, limit: nat, ghost lines: seq<Line>, parse: Parser)
    returns (rows: seq<Row>, total: nat)
    requires IsIndex(db, db.meta.committed, lines, parse)
    ensures rows == Page(SelectRows(db.rows, f), offset, limit) && total == |SelectRows(db.rows, f)|
  {
    hide RowsMatch, FacetsOf, SelectRows;
    RowsAreDense(db.rows, lines, parse, offset);
    if f == NO_FILTER {
      NoFilterSelectsAll(db.rows);
      total := db.meta.count;
      rows := if offset >= total then [] else SeekRows(db.rows, offset, limit);
    } else {
      total := |SelectRows(db.rows, f)|;
      rows := if offset >= total then [] else Page(SelectRows(db.rows, f), offset, limit);
    }
  }

  /**
   * One filtered page: for every log and every earlier index of it, the page, the total and the facet
   * lists are those of filtering and slicing the full scan. It fails exactly when the full scan fails.
   */
  method Query(session: Session, log: Bytes, size: nat, f: Filter, offset: nat, limit: nat)
    returns (r: Result<QueryPage>)
    requires Consistent(log, session.db, session.parse) || Stale(log, size, session.db.meta)
    modifies session
    ensures Consistent(log, session.db, session.parse)
    ensures r.Ok? <==> ScanParses(Scan(log, size), session.parse)
    ensures !r.Ok? ==> r == BadLog
    ensures r.Ok? ==> r.value.entries == Page(Matching(Scan(log, size), session.parse, f), offset, limit)
    ensures r.Ok? ==> r.value.total == |Matching(Scan(log, size), session.parse, f)|
    ensures r.Ok? ==> IsFacet(r.value.nodes, Scan(log, size), Node, session.parse)
    ensures r.Ok? ==> IsFacet(r.value.models, Scan(log, size), Model, session.parse)
    ensures r.Ok? ==> IsFacet(r.value.protocols, Scan(log, size), Protocol, session.parse)
  {
    hide Lines, AllParse, Scan, ScanParses, Matching, StandFor, SelectRows, RowsMatch, FacetsOf, Reachable, SameTexts,
        ScannedValues, Stale, Matches;
    ghost var texts, lines := Scan(log, size), Lines(log, Reachable(log, size));
    LinesAreTheScan(log, size);
    SameTextsParse(texts, lines, session.parse);
    var ok := session.Synchronise(log, size);
    if !ok {
      return BadLog;
    }
    var db, parse := session.db, session.parse;
    var rows, total := SelectPage(db, f, offset, limit, lines, parse);
    ghost var matching := Matching(texts, parse, f);
    SelectionMatches(db.rows, lines, texts, lines, f, parse);
    MatchingMatch(texts, parse, f);
    SameLength(SelectRows(db.rows, f), matching, lines, parse);
    PagesStandFor(SelectRows(db.rows, f), matching, lines, parse, offset, limit);
    var entries := ReadRows(log, db.meta.committed, rows, f, parse, Page(matching, offset, limit));
    FacetsAreScanned(db.rows, lines, texts, Node, parse);
    FacetsAreScanned(db.rows, lines, texts, Model, parse);
    FacetsAreScanned(db.rows, lines, texts, Protocol, parse);
    var nodes := SortedValues(db.facets.nodes);
    var models := SortedValues(db.facets.models);
    var protocols := SortedValues(db.facets.protocols);
    r := Ok(QueryPage(entries.value, total, nodes, models, protocols));
  }

  // ----- A log replaced in the middle

  const SEVENS := Filter(Some([7]), None, None, None, None)

  lemma SampleSelection(db: Db)
    requires IsIndex(db, 6, OLD_LINES, SampleTrace)
    ensures SelectRows(db.rows, SEVENS) == [db.rows[0], db.rows[2]]
  {
    var rows := db.rows;
    assert rows[..1] == [rows[0]] && rows[..2] == [rows[0], rows[1]] && rows[..3] == rows;
    assert SelectRows(rows[..0], SEVENS) == [];
    assert rows[..1][..0] == rows[..0] && rows[..2][..1] == rows[..1] && rows[..3][..2] == rows[..2];
    assert SelectRows(rows[..1], SEVENS) == [rows[0]];
    assert SelectRows(rows[..2], SEVENS) == [rows[0]];
  }

  lemma {:induction false} AllMatch(texts: seq<Bytes>, parse: Parser, f: Filter)
    requires forall i {:trigger texts[i]} :: 0 <= i < |texts| ==> Matches(TraceOfText(texts[i], parse), f)
    ensures |Matching(texts, parse, f)| == |texts|
  {
    hide Matches;
    if texts != [] {
      AllMatch(texts[..|texts| - 1], parse, f);
    }
  }

  lemma SampleScan()
    ensures |Matching(Scan(NEW_LOG, 6), SampleTrace, SEVENS)| == 3
  {
    hide Scan, Lines, Matching;
    SampleLines(NEW_LOG);
    LinesAreTheScan(NEW_LOG, 6);
    assert NEW_LOG[..6] == NEW_LOG;
    AllMatch(Scan(NEW_LOG, 6), SampleTrace, SEVENS);
  }

  /**
   * The index of a log replaced in the middle only is kept, and serves a page that
   * is wrong: its rows read back from the new log without a sign of corruption,
   * but the line that now matches is missing from the page and from the total.
   */
  lemma ReplacedMiddleServesAWrongPage(db: Db)
    requires IsIndex(db, 6, OLD_LINES, SampleTrace)
    ensures var rows := SelectRows(db.rows, SEVENS);
            && !Stale(NEW_LOG, |NEW_LOG|, db.meta)
            && Page(rows, 0, 10) == rows && |rows| == 2
            && (forall i :: 0 <= i < |rows| ==>
                  && Read(NEW_LOG, db.meta.committed, rows[i], SampleTrace).Ok?
                  && Matches(Read(NEW_LOG, db.meta.committed, rows[i], SampleTrace).value.trace, SEVENS))
            && |Matching(Scan(NEW_LOG, |NEW_LOG|), SampleTrace, SEVENS)| == 3
  {
    hide Lines, Scan, Matching, SelectRows, Stale, FacetsOf, Consistent;
    ReplacedMiddleGoesUnnoticed(db);
    SampleSelection(db);
    SampleScan();
    SampleRead(db, 0);
    SampleRead(db, 2);
  }

  lemma SampleRead(db: Db, i: nat)
    requires IsIndex(db, 6, OLD_LINES, SampleTrace) && (i == 0 || i == 2)
    ensures Read(NEW_LOG, db.meta.committed, db.rows[i], SampleTrace) == Ok(Entry(i, SampleTrace([5]).value))
  {
    hide Lines, FacetsOf;
    SampleLines(NEW_LOG);
    LinesStand(NEW_LOG, 6);
    assert Lines(NEW_LOG, 6)[i] == OLD_LINES[i];
    ReadsBack(NEW_LOG, 6, i, OLD_LINES[i], SampleTrace);
  }

  /** A read by ID: the trace the full scan has at that position, and none past its end. */
  method ReadById(session: Session, log: Bytes, size: nat, id: nat) returns (r: Result<Option<Entry>>)
    requires Consistent(log, session.db, session.parse) || Stale(log, size, session.db.meta)
    modifies session
    ensures Consistent(log, session.db, session.parse)
    ensures r.Ok? <==> ScanParses(Scan(log, size), session.parse)
    ensures !r.Ok? ==> r == BadLog
    ensures r.Ok? ==>
            var texts := Scan(log, size);
            r.value == if id < |texts| then Some(Entry(id, TraceOfText(texts[id], session.parse))) else None
  {
    hide Lines, AllParse, Scan, ScanParses, FacetsOf, Reachable, Stale, Read;
    ghost var texts, lines := Scan(log, size), Lines(log, Reachable(log, size));
    LinesAreTheScan(log, size);
    SameTextsParse(texts, lines, session.parse);
    var ok := session.Synchronise(log, size);
    if !ok {
      return BadLog;
    }
    if id >= session.db.meta.count {
      return Ok(None);
    }
    var row := session.db.rows[id];
    assert texts[id] == lines[id].text;
    StandingRowReads(log, session.db.meta.committed, [row], [Entry(id, TraceOf(lines[id], session.parse))], 0,
        session.parse);
    var entry := Read(log, session.db.meta.committed, row, session.parse);
    r := Ok(Some(entry.value));
  }
}
