/** A query whose statements run between the commits and discards
    of other processes: what it answers, and when it is right. */
module InterleavedQuery {
  import opened Hashing
  import opened Options
  import opened TraceLog
  import opened TraceIndex
  import opened TraceQuery
  import Indexers = ConcurrentIndexers

  /** What a query answers: its entries, the total beside them, and the table its facet lists are sorted from. */
  datatype Answer = Answer(entries: seq<Entry>, total: nat, facets: Facets)

  /** The index as each statement of one query finds it: counting, selecting rows, listing facets. */
  datatype Views = Views(count: Db, select: Db, list: Db)

  /** Reads the rows one after another; the first that fails ends it. */
  function ReadAll(log: Bytes, committed: nat, rows: seq<Row>, f: Filter, parse: Parser): Result<seq<Entry>> {
    if rows == [] then Ok([])
    else
      var entry := Read(log, committed, rows[0], parse);
      if !entry.Ok? then Failure(entry)
      else if !Matches(entry.value.trace, f) then Corrupt("FILTER_MISMATCH")
      else
        var rest := ReadAll(log, committed, rows[1..], f, parse);
        if rest.Ok? then Ok([entry.value] + rest.value) else rest
  }

  /** Every row that is answered reads back and matches, whatever the
      rows are; a single one that does not leaves nothing answered. */
  lemma {:induction false} AnsweredIff(log: Bytes, committed: nat, rows: seq<Row>, f: Filter, parse: Parser)
    ensures var r := ReadAll(log, committed, rows, f, parse);
            && (r.Ok? <==> forall i :: 0 <= i < |rows| ==>
                 var entry := Read(log, committed, rows[i], parse);
                 entry.Ok? && Matches(entry.value.trace, f))
            && (r.Ok? ==> |r.value| == |rows|
                          && forall i :: 0 <= i < |rows| ==> Read(log, committed, rows[i], parse) == Ok(r.value[i]))
  {
    hide Read, Matches;
    if rows != [] {
      AnsweredIff(log, committed, rows[1..], f, parse);
      assert forall i :: 1 <= i < |rows| ==> rows[i] == rows[1..][i - 1];
      var r, rest := ReadAll(log, committed, rows, f, parse), ReadAll(log, committed, rows[1..], f, parse);
      if r.Ok? {
        assert forall i :: 1 <= i < |rows| ==> r.value[i] == rest.value[i - 1];
      } else if rest.Ok? {
        var entry := Read(log, committed, rows[0], parse);
        assert !entry.Ok? || !Matches(entry.value.trace, f);
      } else {
        var i :| 0 <= i < |rows[1..]|
                 && !(Read(log, committed, rows[1..][i], parse).Ok?
                      && Matches(Read(log, committed, rows[1..][i], parse).value.trace, f));
        assert rows[i + 1] == rows[1..][i];
      }
    }
  }

  function TotalOf(meta: Meta, v: Views, f: Filter): nat {
    if f == NO_FILTER then meta.count else |SelectRows(v.count.rows, f)|
  }

  function RowsOf(meta: Meta, v: Views, f: Filter, offset: nat, limit: nat): seq<Row> {
    if offset >= TotalOf(meta, v, f) then []
    else if f == NO_FILTER then SeekRows(v.select.rows, offset, limit)
    else Page(SelectRows(v.select.rows, f), offset, limit)
  }

  /** `queryTraceIndex` once it has caught up to `meta`. A corrupt
      answer makes the caller rebuild the index and ask once more. */
  function Served(log: Bytes, meta: Meta, v: Views, f: Filter, offset: nat, limit: nat, parse: Parser): Result<Answer> {
    var entries := ReadAll(log, meta.committed, RowsOf(meta, v, f, offset, limit), f, parse);
    if entries.Ok? then Ok(Answer(entries.value, TotalOf(meta, v, f), v.list.facets)) else Failure(entries)
  }

  /** `readIndexedTrace` once it has caught up to `meta`. */
  function ServedById(log: Bytes, meta: Meta, db: Db, id: nat, parse: Parser): Result<Option<Entry>> {
    if id >= meta.count then Ok(None)
    else if id >= |db.rows| then Corrupt("MISSING_ROW")
    else
      var entry := Read(log, meta.committed, db.rows[id], parse);
      if entry.Ok? then Ok(Some(entry.value)) else Failure(entry)
  }

  /** The metadata and each view are those of some prefix of the log. */
  ghost predicate Fits(log: Bytes, meta: Meta, v: Views, parse: Parser) {
    && Indexers.MetaFits(log, meta, parse)
    && Consistent(log, v.count, parse) && Consistent(log, v.select, parse) && Consistent(log, v.list, parse)
  }

  /** The texts of the lines a prefix holds. */
  function Prefix(log: Bytes, end: nat): seq<Bytes>
    requires end <= |log|
  {
    TextsOf(Lines(log, end))
  }

  lemma EndsInLog(log: Bytes, db: Db, parse: Parser)
    requires Consistent(log, db, parse)
    ensures Boundary(log, db.meta.committed)
  {
  }

  // ----- One row

  /** The lines a longer prefix adds start where the shorter one ends, or later. */
  lemma {:induction false} LaterLinesStartLater(log: Bytes, a: nat, b: nat, i: nat)
    requires Boundary(log, a) && Boundary(log, b) && a <= b && |Lines(log, a)| <= i < |Lines(log, b)|
    ensures Lines(log, b)[i].offset >= a
    decreases b
  {
    if a < b {
      var start := LineStart(log, b);
      assert a > 0 ==> log[..b - 1][a - 1] == log[a - 1];
      CommittedAtLeast(log[..b - 1], a);
      if i < |Lines(log, start)| {
        LaterLinesStartLater(log, a, start, i);
      }
    }
  }

  lemma MetaIs(log: Bytes, meta: Meta, parse: Parser)
    requires Indexers.MetaFits(log, meta, parse)
    ensures Boundary(log, meta.committed) && meta.count == |Lines(log, meta.committed)|
  {
    hide Lines, AllParse;
  }

  lemma LineReads(log: Bytes, end: nat, id: nat, line: Line, parse: Parser)
    requires StandsIn(log, line, end) && parse(line.text).Some?
    ensures Read(log, end, RowFor(id, line, TraceOf(line, parse)), parse) == Ok(Entry(id, TraceOf(line, parse)))
  {
    hide Read, StandsIn;
    ReadsBack(log, end, id, line, parse);
  }

  lemma BeyondFails(log: Bytes, committed: nat, row: Row, parse: Parser)
    requires row.offset + row.length > committed
    ensures Read(log, committed, row, parse) == Corrupt("ROW_RANGE")
  {
  }

  /** A row of any view reads back as its trace where the query caught up that far, and is out of range elsewhere. */
  lemma RowReads(log: Bytes, meta: Meta, db: Db, id: nat, parse: Parser)
    requires Indexers.MetaFits(log, meta, parse) && Consistent(log, db, parse) && id < |Lines(log, db.meta.committed)|
    ensures var line := Lines(log, db.meta.committed)[id];
            Read(log, meta.committed, RowFor(id, line, TraceOf(line, parse)), parse)
            == if id < meta.count then Ok(Entry(id, TraceOf(line, parse))) else Corrupt("ROW_RANGE")
  {
    hide Lines, Read, StandsIn, RowsMatch, FacetsOf;
    var end, committed := db.meta.committed, meta.committed;
    var line := Lines(log, end)[id];
    MetaIs(log, meta, parse);
    LinesStand(log, end);
    assert AllParse(Lines(log, end), parse);
    if committed <= end {
      MoreLines(log, committed, end);
      if id < meta.count {
        LinesStand(log, committed);
        assert line == Lines(log, committed)[id];
        LineReads(log, committed, id, line, parse);
      } else {
        LaterLinesStartLater(log, committed, end, id);
        BeyondFails(log, committed, RowFor(id, line, TraceOf(line, parse)), parse);
      }
    } else {
      MoreLines(log, end, committed);
      LinesStand(log, committed);
      assert line == Lines(log, committed)[id];
      LineReads(log, committed, id, line, parse);
    }
  }

  // ----- A page

  /** The entries a query selects: those of the lines the selecting statement finds indexed. */
  function Selected(log: Bytes, meta: Meta, v: Views, f: Filter, offset: nat, limit: nat, parse: Parser): seq<Entry>
    requires v.select.meta.committed <= |log|
  {
    if offset >= TotalOf(meta, v, f) then []
    else Page(Matching(Prefix(log, v.select.meta.committed), parse, f), offset, limit)
  }

  ghost predicate InReach(entries: seq<Entry>, count: nat) {
    forall i {:trigger entries[i]} :: 0 <= i < |entries| ==> entries[i].traceId < count
  }

  lemma {:induction false} RowsRead(log: Bytes, meta: Meta, db: Db, rows: seq<Row>, entries: seq<Entry>, f: Filter,
      parse: Parser)
    requires Indexers.MetaFits(log, meta, parse) && Consistent(log, db, parse)
    requires StandFor(rows, entries, Lines(log, db.meta.committed), parse)
    requires forall i {:trigger entries[i]} :: 0 <= i < |entries| ==> Matches(entries[i].trace, f)
    ensures ReadAll(log, meta.committed, rows, f, parse)
            == if InReach(entries, meta.count) then Ok(entries) else Corrupt("ROW_RANGE")
    decreases |rows|
  {
    hide Lines, Read, Indexers.MetaFits, Consistent, Matches;
    EndsInLog(log, db, parse);
    if rows != [] {
      assert rows[0].traceId == entries[0].traceId;
      RowReads(log, meta, db, rows[0].traceId, parse);
      TailStandsFor(rows, entries, Lines(log, db.meta.committed), parse);
      RowsRead(log, meta, db, rows[1..], entries[1..], f, parse);
      assert entries == [entries[0]] + entries[1..];
      assert InReach(entries, meta.count) <==> entries[0].traceId < meta.count && InReach(entries[1..], meta.count) by {
        HeadAndTail(entries, meta.count);
      }
    }
  }

  lemma HeadAndTail(entries: seq<Entry>, count: nat)
    requires entries != []
    ensures InReach(entries, count) <==> entries[0].traceId < count && InReach(entries[1..], count)
  {
    assert forall i :: 0 < i < |entries| ==> entries[i] == entries[1..][i - 1];
  }

  lemma TailStandsFor(rows: seq<Row>, entries: seq<Entry>, lines: seq<Line>, parse: Parser)
    requires StandFor(rows, entries, lines, parse) && rows != []
    ensures StandFor(rows[1..], entries[1..], lines, parse)
  {
  }

  /** The index of a prefix selects what matches among its lines. */
  lemma SelectsMatching(log: Bytes, db: Db, f: Filter, parse: Parser)
    requires Consistent(log, db, parse)
    ensures StandFor(SelectRows(db.rows, f), Matching(Prefix(log, db.meta.committed), parse, f),
                     Lines(log, db.meta.committed), parse)
    ensures |SelectRows(db.rows, f)| == |Matching(Prefix(log, db.meta.committed), parse, f)|
  {
    hide Lines, AllParse, RowsMatch, FacetsOf, SelectRows, Matching;
    var lines := Lines(log, db.meta.committed);
    TextsAreSame(lines);
    SelectionMatches(db.rows, lines, TextsOf(lines), lines, f, parse);
  }

  lemma SeeksAsPage(log: Bytes, db: Db, offset: nat, limit: nat, parse: Parser)
    requires Consistent(log, db, parse)
    ensures SeekRows(db.rows, offset, limit) == Page(SelectRows(db.rows, NO_FILTER), offset, limit)
  {
    hide Lines, AllParse, RowsMatch, FacetsOf, SelectRows, FromId;
    NoFilterSelectsAll(db.rows);
    RowsAreDense(db.rows, Lines(log, db.meta.committed), parse, offset);
  }

  /**
   * What a query answers, whatever was committed or discarded between its statements: the
   * entries are those of the lines the selecting statement found indexed, the total that
   * of the lines the counting one did, and the answer is corrupt, as out of range, exactly
   * when a selected line lies beyond what the query caught up to. No entry is ever wrong.
   */
  lemma ServedIs(log: Bytes, meta: Meta, v: Views, f: Filter, offset: nat, limit: nat, parse: Parser)
    requires Fits(log, meta, v, parse)
    ensures var entries := Selected(log, meta, v, f, offset, limit, parse);
            Served(log, meta, v, f, offset, limit, parse)
            == if !InReach(entries, meta.count) then Corrupt("ROW_RANGE")
               else Ok(Answer(entries, TotalOf(meta, v, f), v.list.facets))
    ensures TotalOf(meta, v, f)
            == if f == NO_FILTER then |Prefix(log, meta.committed)|
               else |Matching(Prefix(log, v.count.meta.committed), parse, f)|
  {
    hide Lines, Consistent, Indexers.MetaFits, Matching, SelectRows, ReadAll, StandFor, FromId, Matches;
    MetaIs(log, meta, parse);
    EndsInLog(log, v.select, parse);
    TextsAreSame(Lines(log, meta.committed));
    SelectsMatching(log, v.count, f, parse);
    SelectsMatching(log, v.select, f, parse);
    var lines, texts := Lines(log, v.select.meta.committed), Prefix(log, v.select.meta.committed);
    if offset < TotalOf(meta, v, f) {
      SeeksAsPage(log, v.select, offset, limit, parse);
      PagesStandFor(SelectRows(v.select.rows, f), Matching(texts, parse, f), lines, parse, offset, limit);
      MatchingMatch(texts, parse, f);
      RowsRead(log, meta, v.select, RowsOf(meta, v, f, offset, limit), Selected(log, meta, v, f, offset, limit, parse),
               f, parse);
    } else {
      NothingReads(log, meta.committed, f, parse);
    }
  }

  lemma NothingReads(log: Bytes, committed: nat, f: Filter, parse: Parser)
    ensures ReadAll(log, committed, [], f, parse) == Ok([])
  {
  }

  /** A read by ID is the scan's trace at that position, or none past its end, or says that the row is missing. */
  lemma ServedByIdIs(log: Bytes, meta: Meta, v: Views, id: nat, parse: Parser)
    requires Fits(log, meta, v, parse)
    ensures ServedById(log, meta, v.select, id, parse)
            == if id >= |Prefix(log, meta.committed)| then Ok(None)
               else if id >= |Prefix(log, v.select.meta.committed)| then Corrupt("MISSING_ROW")
               else Ok(Some(Entry(id, TraceOfText(Prefix(log, meta.committed)[id], parse))))
  {
    hide Lines, Indexers.MetaFits, Read, FacetsOf, AllParse;
    var end, committed := v.select.meta.committed, meta.committed;
    MetaIs(log, meta, parse);
    TextsAreSame(Lines(log, committed));
    TextsAreSame(Lines(log, end));
    if id < meta.count && id < |Lines(log, end)| {
      RowReads(log, meta, v.select, id, parse);
      SameLineOfBoth(log, committed, end, id);
      assert Prefix(log, committed)[id] == Lines(log, committed)[id].text;
    }
  }

  lemma SameLineOfBoth(log: Bytes, a: nat, b: nat, id: nat)
    requires Boundary(log, a) && Boundary(log, b) && id < |Lines(log, a)| && id < |Lines(log, b)|
    ensures Lines(log, a)[id] == Lines(log, b)[id]
  {
    hide Lines;
    if a <= b { MoreLines(log, a, b); } else { MoreLines(log, b, a); }
  }

  // ----- When every query is right

  /** The page and the total of filtering and slicing the scan of what the query caught up to. */
  ghost predicate IsScan(r: Result<Answer>, texts: seq<Bytes>, f: Filter, offset: nat, limit: nat, parse: Parser) {
    && r.Ok? && r.value.entries == Page(Matching(texts, parse, f), offset, limit)
    && r.value.total == |Matching(texts, parse, f)|
  }

  lemma {:induction false} MatchingInReach(texts: seq<Bytes>, parse: Parser, f: Filter)
    ensures InReach(Matching(texts, parse, f), |texts|) && |Matching(texts, parse, f)| <= |texts|
  {
    hide Matches;
    if texts != [] {
      MatchingInReach(texts[..|texts| - 1], parse, f);
    }
  }

  lemma {:induction false} AllMatch(texts: seq<Bytes>, parse: Parser, f: Filter)
    requires forall t: Trace {:trigger Matches(t, f)} :: Matches(t, f)
    ensures |Matching(texts, parse, f)| == |texts|
  {
    if texts != [] {
      AllMatch(texts[..|texts| - 1], parse, f);
    }
  }

  /** Selects every trace, by a clause of its own. */
  const ANY := Filter(None, None, None, None, Some([]))

  lemma AnyMatches()
    ensures forall t: Trace {:trigger Matches(t, ANY)} :: Matches(t, ANY)
    ensures forall t: Trace {:trigger Matches(t, NO_FILTER)} :: Matches(t, NO_FILTER)
  {
    forall t: Trace ensures Matches(t, ANY) {
      assert t.activityId[0..] == t.activityId;
      assert Contains(t.activityId, []);
    }
  }

  lemma SameLength(log: Bytes, a: nat, b: nat)
    requires Boundary(log, a) && Boundary(log, b) && |Prefix(log, a)| == |Prefix(log, b)|
    ensures Prefix(log, a) == Prefix(log, b)
  {
    hide Lines;
    TextsAreSame(Lines(log, a));
    TextsAreSame(Lines(log, b));
    if a <= b { MoreLines(log, a, b); } else { MoreLines(log, b, a); }
  }

  lemma PageInReach(entries: seq<Entry>, offset: nat, limit: nat, count: nat)
    requires InReach(entries, count)
    ensures InReach(Page(entries, offset, limit), count)
  {
  }

  /** What the statements of a query found indexed is what it caught up to. */
  ghost predicate Undisturbed(log: Bytes, meta: Meta, v: Views)
    requires meta.committed <= |log| && v.count.meta.committed <= |log| && v.select.meta.committed <= |log|
  {
    && |Prefix(log, v.count.meta.committed)| == |Prefix(log, meta.committed)|
    && (meta.count > 0 ==> |Prefix(log, v.select.meta.committed)| == |Prefix(log, meta.committed)|)
  }

  lemma UndisturbedIsScan(log: Bytes, meta: Meta, v: Views, f: Filter, offset: nat, limit: nat, parse: Parser)
    requires Fits(log, meta, v, parse) && Undisturbed(log, meta, v)
    ensures IsScan(Served(log, meta, v, f, offset, limit, parse), Prefix(log, meta.committed), f, offset, limit, parse)
  {
    hide Lines, Matching, Served, AllParse, RowsMatch, FacetsOf, MetaOf;
    var texts := Prefix(log, meta.committed);
    MetaIs(log, meta, parse);
    TextsAreSame(Lines(log, meta.committed));
    ServedIs(log, meta, v, f, offset, limit, parse);
    SameLength(log, v.count.meta.committed, meta.committed);
    MatchingInReach(texts, parse, f);
    PageInReach(Matching(texts, parse, f), offset, limit, meta.count);
    if f == NO_FILTER {
      AnyMatches();
      AllMatch(texts, parse, f);
    }
    if meta.count > 0 {
      SameLength(log, v.select.meta.committed, meta.committed);
    }
  }

  /** Every query is answered as the scan answers it exactly when
      none of its statements found the index extended or cut. */
  lemma QueriesAreScansIff(log: Bytes, meta: Meta, v: Views, parse: Parser)
    requires Fits(log, meta, v, parse)
    ensures Undisturbed(log, meta, v) <==>
            forall f, offset, limit {:trigger Served(log, meta, v, f, offset, limit, parse)} ::
              IsScan(Served(log, meta, v, f, offset, limit, parse), Prefix(log, meta.committed), f, offset, limit,
                     parse)
  {
    hide Lines, Matching, Served, IsScan, AllParse, RowsMatch, FacetsOf, MetaOf, Undisturbed;
    if Undisturbed(log, meta, v) {
      forall f, offset, limit
        ensures IsScan(Served(log, meta, v, f, offset, limit, parse), Prefix(log, meta.committed), f, offset, limit,
                       parse)
      {
        UndisturbedIsScan(log, meta, v, f, offset, limit, parse);
      }
    }
    if forall f, offset, limit {:trigger Served(log, meta, v, f, offset, limit, parse)} ::
         IsScan(Served(log, meta, v, f, offset, limit, parse), Prefix(log, meta.committed), f, offset, limit, parse) {
      var n := |Prefix(log, v.select.meta.committed)|;
      assert IsScan(Served(log, meta, v, ANY, 0, 0, parse), Prefix(log, meta.committed), ANY, 0, 0, parse);
      assert IsScan(Served(log, meta, v, NO_FILTER, 0, n + meta.count, parse), Prefix(log, meta.committed),
                    NO_FILTER, 0, n + meta.count, parse);
      ScansAreUndisturbed(log, meta, v, parse);
    }
  }

  /** Two queries tell: one that counts every trace by a clause, and one that asks for all of them. */
  lemma ScansAreUndisturbed(log: Bytes, meta: Meta, v: Views, parse: Parser)
    requires Fits(log, meta, v, parse)
    requires IsScan(Served(log, meta, v, ANY, 0, 0, parse), Prefix(log, meta.committed), ANY, 0, 0, parse)
    requires var limit := |Prefix(log, v.select.meta.committed)| + meta.count;
             IsScan(Served(log, meta, v, NO_FILTER, 0, limit, parse), Prefix(log, meta.committed), NO_FILTER, 0,
                    limit, parse)
    ensures Undisturbed(log, meta, v)
  {
    hide Lines, Matching, Served, AllParse, RowsMatch, FacetsOf, MetaOf;
    var texts, counted, found :=
      Prefix(log, meta.committed), Prefix(log, v.count.meta.committed), Prefix(log, v.select.meta.committed);
    MetaIs(log, meta, parse);
    TextsAreSame(Lines(log, meta.committed));
    AnyMatches();
    AllMatch(texts, parse, ANY);
    AllMatch(counted, parse, ANY);
    AllMatch(texts, parse, NO_FILTER);
    AllMatch(found, parse, NO_FILTER);
    ServedIs(log, meta, v, ANY, 0, 0, parse);
    ServedIs(log, meta, v, NO_FILTER, 0, |found| + meta.count, parse);
  }

  // ----- Over interleavings

  lemma KeepsTransitive(a: Bytes, b: Bytes, c: Bytes)
    requires KeepsCommitted(a, b) && KeepsCommitted(b, c)
    ensures KeepsCommitted(a, c)
  {
    hide CommittedLength;
    var n := CommittedLength(a);
    CommittedBoundary(a);
    assert b[..n] == a[..n];
    assert n > 0 ==> b[n - 1] == b[..n][n - 1] == a[..n][n - 1] == a[n - 1];
    CommittedAtLeast(b, n);
    assert c[..n] == c[..CommittedLength(b)][..n] == b[..CommittedLength(b)][..n] == b[..n];
  }

  lemma CommittedBoundary(a: Bytes)
    ensures Boundary(a, CommittedLength(a))
  {
  }

  lemma KeepsReflexive(a: Bytes)
    ensures KeepsCommitted(a, a)
  {
  }

  lemma StepKeepsLog(s: Indexers.Sys, e: Indexers.Event, parse: Parser)
    ensures KeepsCommitted(s.log, Indexers.Apply(s, e, parse).log)
  {
    hide KeepsCommitted, Indexers.PlanStep, Indexers.CommitStep, Stale, Recovered;
    KeepsReflexive(s.log);
    match e
    case Append(bytes) => AppendAndRecoveryKeepCommitted(s.log, bytes);
    case Recover => AppendAndRecoveryKeepCommitted(s.log, []);
    case Plan(id) => assert id in s.procs ==> Indexers.PlanStep(s, id, parse).log == s.log by { PlanLog(s, id, parse); }
    case Commit(id) => CommitLog(s, id);
    case _ =>
  }

  lemma PlanLog(s: Indexers.Sys, id: nat, parse: Parser)
    ensures id in s.procs ==> Indexers.PlanStep(s, id, parse).log == s.log
  {
  }

  lemma CommitLog(s: Indexers.Sys, id: nat)
    ensures id in s.procs && s.procs[id].phase.Planned? ==> Indexers.CommitStep(s, id).log == s.log
  {
  }

  lemma {:induction false} RunKeepsBoth(s: Indexers.Sys, events: seq<Indexers.Event>, parse: Parser)
    requires Indexers.Inv(s, parse)
    ensures Indexers.Inv(Indexers.Run(s, events, parse), parse)
    ensures KeepsCommitted(s.log, Indexers.Run(s, events, parse).log)
  {
    hide KeepsCommitted, Indexers.Inv, Indexers.Apply;
    if events == [] {
      KeepsReflexive(s.log);
    } else {
      var front := Indexers.Run(s, events[..|events| - 1], parse);
      RunKeepsBoth(s, events[..|events| - 1], parse);
      Indexers.StepKeeps(front, events[|events| - 1], parse);
      StepKeepsLog(front, events[|events| - 1], parse);
      KeepsTransitive(s.log, front.log, Indexers.Run(s, events, parse).log);
    }
  }

  /**
   * A query of a process of any run: others commit, discard, append and recover before it counts, between counting
   * and selecting, and between selecting and listing the facets. The log at the end still holds all it read, so the
   * answer is the one `ServedIs` names, and right for every filter and page exactly as `QueriesAreScansIff` says.
   */
  lemma ServedOverRuns(log: Bytes, before: seq<Indexers.Event>, counting: seq<Indexers.Event>,
      selecting: seq<Indexers.Event>, listing: seq<Indexers.Event>, id: nat, parse: Parser)
    requires id in Indexers.Run(Indexers.Sys(log, EMPTY_DB, map[]), before, parse).procs
    ensures var s := Indexers.Run(Indexers.Sys(log, EMPTY_DB, map[]), before, parse);
            var a := Indexers.Run(s, counting, parse);
            var b := Indexers.Run(a, selecting, parse);
            var c := Indexers.Run(b, listing, parse);
            Fits(c.log, s.procs[id].meta, Views(a.db, b.db, c.db), parse)
  {
    hide KeepsCommitted, Indexers.Run, Consistent, Indexers.MetaFits;
    var s := Indexers.Run(Indexers.Sys(log, EMPTY_DB, map[]), before, parse);
    Indexers.RunKeeps(log, before, parse);
    var a := Indexers.Run(s, counting, parse);
    RunKeepsBoth(s, counting, parse);
    var b := Indexers.Run(a, selecting, parse);
    RunKeepsBoth(a, selecting, parse);
    var c := Indexers.Run(b, listing, parse);
    RunKeepsBoth(b, listing, parse);
    KeepsTransitive(a.log, b.log, c.log);
    KeepsTransitive(s.log, a.log, c.log);
    assert Indexers.ProcFits(s.log, s.procs[id], parse);
    Indexers.MetaFitsLater(s.log, c.log, s.procs[id].meta, parse);
    ConsistentLater(a.log, c.log, a.db, parse);
    ConsistentLater(b.log, c.log, b.db, parse);
  }

  /** An index discarded between counting and selecting: an empty page beside a total that is not zero. */
  lemma DiscardedBetween(log: Bytes, meta: Meta, db: Db, limit: nat, parse: Parser)
    requires Indexers.MetaFits(log, meta, parse) && Consistent(log, db, parse) && meta.count > 0
    ensures Served(log, meta, Views(db, EMPTY_DB, EMPTY_DB), NO_FILTER, 0, limit, parse)
            == Ok(Answer([], meta.count, NO_FACETS))
  {
    hide Lines, Indexers.MetaFits, Consistent, SelectRows, Read;
    NothingReads(log, meta.committed, NO_FILTER, parse);
    assert FromId([], 0) == [];
  }

  /** An index extended between catching up and selecting: a
      page that reaches past what was caught up is out of range. */
  lemma ExtendedBetween(log: Bytes, meta: Meta, db: Db, parse: Parser)
    requires Indexers.MetaFits(log, meta, parse) && Consistent(log, db, parse)
    requires meta.count > 0 && |Lines(log, db.meta.committed)| > meta.count
    ensures Served(log, meta, Views(db, db, db), NO_FILTER, 0, meta.count + 1, parse) == Corrupt("ROW_RANGE")
  {
    hide Lines, Indexers.MetaFits, Consistent, Matching, Served;
    EndsInLog(log, db, parse);
    var texts := Prefix(log, db.meta.committed);
    TextsAreSame(Lines(log, db.meta.committed));
    ServedIs(log, meta, Views(db, db, db), NO_FILTER, 0, meta.count + 1, parse);
    AnyMatches();
    AllMatch(texts, parse, NO_FILTER);
    EntryIds(texts, parse, meta.count);
    var entries := Selected(log, meta, Views(db, db, db), NO_FILTER, 0, meta.count + 1, parse);
    assert entries[meta.count].traceId == meta.count;
  }

  lemma {:induction false} EntryIds(texts: seq<Bytes>, parse: Parser, i: nat)
    requires i < |texts|
    ensures |Matching(texts, parse, NO_FILTER)| == |texts| && Matching(texts, parse, NO_FILTER)[i].traceId == i
  {
    hide Matches;
    AnyMatches();
    var n := |texts| - 1;
    assert Matches(TraceOfText(texts[n], parse), NO_FILTER);
    AllMatch(texts[..n], parse, NO_FILTER);
    if i < n {
      EntryIds(texts[..n], parse, i);
    }
  }
}
