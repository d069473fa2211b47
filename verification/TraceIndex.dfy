/** The persistent query index over the trace log: byte ranges and filter columns of the committed lines. */
module TraceIndex {
  import opened Hashing
  import opened Options
  import Sequences
  import Text
  import opened TraceLog

  const CHUNK_BYTES: nat := 1_048_576

  datatype Row = Row(traceId: nat, offset: nat, length: nat, nodeId: Text.Units, modelId: Text.Units,
      protocolId: Text.Units, outcome: Text.Units, activityId: Text.Units)

  /** The range and hash of the first or last indexed line; no hash while there is none. */
  datatype Anchor = Anchor(offset: nat, length: nat, hash: Option<Digest>)

  datatype Meta = Meta(committed: nat, count: nat, first: Anchor, last: Anchor)

  /** The distinct values of each facet column. */
  datatype Facets = Facets(nodes: set<Text.Units>, models: set<Text.Units>, protocols: set<Text.Units>)

  datatype Db = Db(meta: Meta, rows: seq<Row>, facets: Facets)

  const NO_ANCHOR := Anchor(0, 0, None)
  const NO_FACETS := Facets({}, {}, {})
  const EMPTY_META := Meta(0, 0, NO_ANCHOR, NO_ANCHOR)
  const EMPTY_DB := Db(EMPTY_META, [], NO_FACETS)

  // ----- What the index of a log prefix is

  const NO_TRACE := Trace([], [], [], [], [], [])

  function TraceOfText(text: Bytes, parse: Parser): Trace {
    if parse(text).Some? then parse(text).value else NO_TRACE
  }

  function TraceOf(line: Line, parse: Parser): Trace { TraceOfText(line.text, parse) }

  function RowFor(id: nat, line: Line, t: Trace): Row {
    Row(id, line.offset, |line.text| + 1, t.nodeId, t.modelId, t.protocolId, t.outcome, t.activityId)
  }

  /** One row for each line, its trace ID the position of the line. */
  ghost predicate RowsMatch(rows: seq<Row>, lines: seq<Line>, parse: Parser) {
    && |rows| == |lines|
    && forall i {:trigger rows[i]} :: 0 <= i < |rows| ==> rows[i] == RowFor(i, lines[i], TraceOf(lines[i], parse))
  }

  predicate AllParse(lines: seq<Line>, parse: Parser) {
    forall i {:trigger lines[i]} :: 0 <= i < |lines| ==> parse(lines[i].text).Some?
  }

  function FacetsOf(rows: seq<Row>): Facets {
    Facets(set i | 0 <= i < |rows| :: rows[i].nodeId, set i | 0 <= i < |rows| ::
        rows[i].modelId, set i | 0 <= i < |rows| :: rows[i].protocolId)
  }

  function AnchorOf(line: Line): Anchor {
    Anchor(line.offset, |line.text| + 1, Some(Sha256(line.text + [NEWLINE])))
  }

  function MetaOf(end: nat, lines: seq<Line>): Meta {
    if lines == [] then Meta(end, 0, NO_ANCHOR, NO_ANCHOR)
    else Meta(end, |lines|, AnchorOf(lines[0]), AnchorOf(lines[|lines| - 1]))
  }

  /** The database is the index of a log whose prefix up to `end` holds these lines. */
  ghost predicate IsIndex(db: Db, end: nat, lines: seq<Line>, parse: Parser) {
    && db.meta == MetaOf(end, lines) && RowsMatch(db.rows, lines, parse) && db.facets == FacetsOf(db.rows)
  }

  /** The index holds exactly what the log holds before a boundary. */
  ghost predicate Consistent(log: Bytes, db: Db, parse: Parser) {
    && Boundary(log, db.meta.committed)
    && AllParse(Lines(log, db.meta.committed), parse)
    && IsIndex(db, db.meta.committed, Lines(log, db.meta.committed), parse)
  }

  // ----- Reading the log

  /** Up to `length` bytes from `position`: fewer at the end of the log. */
  function ReadRange(log: Bytes, position: nat, length: nat): Bytes {
    if position >= |log| then []
    else if position + length <= |log| then log[position..position + length]
    else log[position..]
  }

  /** Why `synchronise` discards the index: the log is shorter than it, or its first or last line changed. */
  predicate Stale(log: Bytes, size: nat, meta: Meta) {
    || meta.committed > size
    || (meta.count > 0 &&
        (|| meta.first.hash != Some(Sha256(ReadRange(log, meta.first.offset, meta.first.length)))
         || meta.last.hash != Some(Sha256(ReadRange(log, meta.last.offset, meta.last.length)))))
  }

  lemma AnchorMatches(log: Bytes, end: nat, line: Line)
    requires StandsIn(log, line, end)
    ensures AnchorOf(line).hash == Some(Sha256(ReadRange(log, AnchorOf(line).offset, AnchorOf(line).length)))
  {
  }

  /** The index of a log that still starts with what was indexed is discarded only if the size read is too small. */
  lemma MetaIsStaleIffLonger(log: Bytes, meta: Meta, size: nat)
    requires Boundary(log, meta.committed) && meta == MetaOf(meta.committed, Lines(log, meta.committed))
    ensures Stale(log, size, meta) <==> meta.committed > size
  {
    hide Lines, ReadRange, AnchorOf, StandsIn;
    var end := meta.committed;
    var lines := Lines(log, end);
    if lines != [] {
      LinesStand(log, end);
      AnchorMatches(log, end, lines[0]);
      AnchorMatches(log, end, lines[|lines| - 1]);
    }
  }

  /**
   * What makes `synchronise` discard an index of another log: that log is shorter than what was indexed,
   * or reads differently at the first or the last indexed line. Nothing in between is compared.
   */
  lemma StaleIffEndsChanged(before: Bytes, after: Bytes, db: Db, parse: Parser)
    requires Consistent(before, db, parse)
    ensures var lines := Lines(before, db.meta.committed);
            Stale(after, |after|, db.meta) <==>
            (db.meta.committed > |after|
                || (lines != [] && (!SameLine(before, after, lines[0])
                || !SameLine(before, after, lines[|lines| - 1]))))
  {
    hide Lines, AllParse, RowsMatch, FacetsOf, ReadRange, StandsIn;
    var lines, end := Lines(before, db.meta.committed), db.meta.committed;
    if lines != [] {
      LinesStand(before, end);
      AnchorMatches(before, end, lines[0]);
      AnchorMatches(before, end, lines[|lines| - 1]);
    }
  }

  predicate SameLine(a: Bytes, b: Bytes, line: Line) {
    ReadRange(a, line.offset, |line.text| + 1) == ReadRange(b, line.offset, |line.text| + 1)
  }

  const OLD_LOG: Bytes := [5, NEWLINE, 6, NEWLINE, 5, NEWLINE]
  const NEW_LOG: Bytes := [5, NEWLINE, 7, NEWLINE, 5, NEWLINE]

  function SampleTrace(text: Bytes): Option<Trace> {
    Some(Trace(if text == [6] then [6] else [7], [], [], [], [], []))
  }

  lemma SampleLines(log: Bytes)
    requires |log| == 6 && log[1] == log[3] == log[5] == NEWLINE && log[0] != NEWLINE && log[2] != NEWLINE
             && log[4] != NEWLINE
    ensures Lines(log, 6) == [Line(0, [log[0]]), Line(2, [log[2]]), Line(4, [log[4]])]
  {
    NextLine(log, 0, 2);
    NextLine(log, 2, 4);
    NextLine(log, 4, 6);
    assert log[0..1] == [log[0]] && log[2..3] == [log[2]] && log[4..5] == [log[4]];
  }

  const OLD_LINES := [Line(0, [5]), Line(2, [6]), Line(4, [5])]

  /** A log replaced in the middle only is taken for the log that was indexed. */
  lemma ReplacedMiddleGoesUnnoticed(db: Db)
    requires IsIndex(db, 6, OLD_LINES, SampleTrace)
    ensures Consistent(OLD_LOG, db, SampleTrace)
    ensures !Stale(NEW_LOG, |NEW_LOG|, db.meta)
    ensures !Consistent(NEW_LOG, db, SampleTrace)
  {
    hide Lines, FacetsOf;
    SampleLines(OLD_LOG);
    SampleLines(NEW_LOG);
    StaleIffEndsChanged(OLD_LOG, NEW_LOG, db, SampleTrace);
    var lines := Lines(NEW_LOG, 6);
    assert lines[1] == Line(2, [7]) && OLD_LINES[1] == Line(2, [6]);
    assert db.rows[1].nodeId == [6] && RowFor(1, lines[1], TraceOf(lines[1], SampleTrace)).nodeId == [7];
  }

  lemma EmptyIsConsistent(log: Bytes, parse: Parser)
    ensures Consistent(log, EMPTY_DB, parse)
  {
  }

  /** Appending to the log or recovering its torn tail leaves a consistent index consistent. */
  lemma ConsistentLater(before: Bytes, after: Bytes, db: Db, parse: Parser)
    requires Consistent(before, db, parse) && KeepsCommitted(before, after)
    ensures Consistent(after, db, parse)
  {
    CommittedLinesAreStable(before, after, db.meta.committed);
  }

  // ----- The lines of a window

  /** A window: some bytes of the log from the boundary `base` on, the last of the first `end` of them a newline. */
  predicate Window(log: Bytes, base: nat, bytes: Bytes, end: nat) {
    && base + |bytes| <= |log| && bytes == log[base..base + |bytes|]
    && Boundary(log, base) && Complete(bytes, end)
  }

  predicate Complete(bytes: Bytes, end: nat) { end <= |bytes| && (end > 0 ==> bytes[end - 1] == NEWLINE) }

  /** The index of the first newline at or after `start`. */
  function NextNewline(bytes: Bytes, end: nat, start: nat): (at: nat)
    requires Complete(bytes, end) && start < end
    ensures start <= at < end && bytes[at] == NEWLINE && LineEnds(bytes, start, at + 1)
    decreases end - start
  {
    if bytes[start] == NEWLINE then start else NextNewline(bytes, end, start + 1)
  }

  /** The line of a window from `start` to right before the newline at `stop - 1`; an empty line is none. */
  function WindowLine(bytes: Bytes, base: nat, start: nat, stop: nat): seq<Line>
    requires start < stop <= |bytes|
  {
    if stop - start > 1 then [Line(base + start, bytes[start..stop - 1])] else []
  }

  function WindowLines(bytes: Bytes, end: nat, base: nat, start: nat): seq<Line>
    requires Complete(bytes, end) && start <= end
    decreases end - start
  {
    if start == end then []
    else
      var stop := NextNewline(bytes, end, start) + 1;
      WindowLine(bytes, base, start, stop) + WindowLines(bytes, end, base, stop)
  }

  /** The next line of a window is the log's next line. */
  lemma WindowLineIsNext(log: Bytes, base: nat, bytes: Bytes, start: nat, stop: nat)
    requires base + |bytes| <= |log| && bytes == log[base..base + |bytes|] && LineEnds(bytes, start, stop)
    ensures LineEnds(log, base + start, base + stop)
    ensures WindowLine(bytes, base, start, stop) == LineBetween(log, base + start, base + stop)
  {
    Sequences.SliceOfSlice(log, base, base + |bytes|, start, stop - 1);
    assert forall i :: base + start <= i < base + stop ==> log[i] == bytes[i - base];
  }

  lemma Joined<T>(whole: seq<T>, a: seq<T>, b: seq<T>, c: seq<T>)
    ensures whole == (a + b) + c <==> whole == a + (b + c)
  {
  }

  /** A window adds exactly its lines to those of the log before it. */
  lemma {:induction false} WindowAddsLines(log: Bytes, base: nat, bytes: Bytes, end: nat, start: nat)
    requires Window(log, base, bytes, end) && start <= end && Boundary(log, base + start)
    ensures Lines(log, base + end) == Lines(log, base + start) + WindowLines(bytes, end, base, start)
    decreases end - start
  {
    hide Lines, LineEnds, LineBetween, WindowLine, LineStart;
    if start < end {
      var stop := NextNewline(bytes, end, start) + 1;
      WindowLineIsNext(log, base, bytes, start, stop);
      NextLine(log, base + start, base + stop);
      WindowAddsLines(log, base, bytes, end, stop);
      Joined(Lines(log, base + end), Lines(log, base + start), WindowLine(bytes, base, start, stop),
          WindowLines(bytes, end, base, stop));
    }
  }

  // ----- The rows of a window

  /** A row about to be inserted, with the bytes of its line. */
  datatype Indexed = Indexed(row: Row, bytes: Bytes)

  function IndexedFor(id: nat, line: Line, parse: Parser): Indexed {
    Indexed(RowFor(id, line, TraceOf(line, parse)), line.text + [NEWLINE])
  }

  /** One entry for each line, the first under the ID `count`. */
  ghost predicate IndexedMatch(indexed: seq<Indexed>, lines: seq<Line>, count: nat, parse: Parser) {
    && |indexed| == |lines|
    && forall i {:trigger indexed[i]} :: 0 <= i < |indexed| ==> indexed[i] == IndexedFor(count + i, lines[i], parse)
  }

  lemma BadLine(lines: seq<Line>, i: nat, parse: Parser)
    requires i < |lines| && parse(lines[i].text).None?
    ensures !AllParse(lines, parse)
  {
  }

  lemma GoodLine(lines: seq<Line>, indexed: seq<Indexed>, line: Line, count: nat, parse: Parser)
    requires AllParse(lines, parse) && IndexedMatch(indexed, lines, count, parse) && parse(line.text).Some?
    ensures AllParse(lines + [line], parse)
    ensures IndexedMatch(indexed + [IndexedFor(count + |indexed|, line, parse)], lines + [line], count, parse)
  {
    AllParseAppend(lines, [line], parse);
  }

  lemma AllParseAppend(lines: seq<Line>, more: seq<Line>, parse: Parser)
    ensures AllParse(lines + more, parse) <==> AllParse(lines, parse) && AllParse(more, parse)
  {
    assert forall i :: 0 <= i < |lines| ==> (lines + more)[i] == lines[i];
    assert forall i :: 0 <= i < |more| ==> (lines + more)[|lines| + i] == more[i];
  }

  lemma NothingIndexed(count: nat, parse: Parser)
    ensures AllParse([], parse) && IndexedMatch([], [], count, parse)
  {
  }

  lemma WindowStep(all: seq<Line>, lines: seq<Line>, bytes: Bytes, end: nat, base: nat, start: nat, stop: nat)
    requires Complete(bytes, end) && start < end && stop == NextNewline(bytes, end, start) + 1
    requires all == lines + WindowLines(bytes, end, base, start)
    ensures all == (lines + WindowLine(bytes, base, start, stop)) + WindowLines(bytes, end, base, stop)
    ensures lines + [] == lines
  {
    Joined(all, lines, WindowLine(bytes, base, start, stop), WindowLines(bytes, end, base, stop));
  }

  lemma WindowDone(all: seq<Line>, lines: seq<Line>, bytes: Bytes, end: nat, base: nat)
    requires Complete(bytes, end) && all == lines + WindowLines(bytes, end, base, end)
    ensures all == lines
  {
  }

  lemma LineBytes(bytes: Bytes, start: nat, stop: nat)
    requires start < stop <= |bytes| && bytes[stop - 1] == NEWLINE
    ensures bytes[start..stop] == bytes[start..stop - 1] + [NEWLINE]
  {
  }

  /** Splits the complete lines of a window into rows, and parses each. */
  method IndexWindow(bytes: Bytes, end: nat, base: nat, count: nat, parse: Parser) returns (rows: Option<seq<Indexed>>)
    requires Complete(bytes, end)
    ensures rows.Some? <==> AllParse(WindowLines(bytes, end, base, 0), parse)
    ensures rows.Some? ==> IndexedMatch(rows.value, WindowLines(bytes, end, base, 0), count, parse)
  {
    hide AllParse, IndexedMatch, LineEnds, WindowLines;
    ghost var all, lines := WindowLines(bytes, end, base, 0), [];
    NothingIndexed(count, parse);
    var indexed: seq<Indexed>, start := [], 0;
    while start < end
      invariant 0 <= start <= end && all == lines + WindowLines(bytes, end, base, start)
      invariant AllParse(lines, parse) && IndexedMatch(indexed, lines, count, parse)
    {
      var stop := NextNewline(bytes, end, start) + 1;
      WindowStep(all, lines, bytes, end, base, start, stop);
      if stop - start > 1 {
        var line := Line(base + start, bytes[start..stop - 1]);
        var trace := parse(line.text);
        if trace.None? {
          BadLine(all, |lines|, parse);
          return None;
        }
        GoodLine(lines, indexed, line, count, parse);
        LineBytes(bytes, start, stop);
        indexed := indexed + [Indexed(RowFor(count + |indexed|, line, trace.value), bytes[start..stop])];
        lines := lines + [line];
      }
      start := stop;
    }
    WindowDone(all, lines, bytes, end, base);
    rows := Some(indexed);
  }

  // ----- Extending the index

  function AnchorFor(i: Indexed): Anchor { Anchor(i.row.offset, i.row.length, Some(Sha256(i.bytes))) }

  /** The metadata after the rows of a window. */
  function NextMeta(meta: Meta, end: nat, indexed: seq<Indexed>): Meta {
    Meta(meta.committed + end, meta.count + |indexed|,
         if meta.count == 0 && indexed != [] then AnchorFor(indexed[0]) else meta.first,
         if indexed != [] then AnchorFor(indexed[|indexed| - 1]) else meta.last)
  }

  function RowsIn(indexed: seq<Indexed>): (rows: seq<Row>)
    ensures |rows| == |indexed|
    ensures forall i :: 0 <= i < |rows| ==> rows[i] == indexed[i].row
  {
    if indexed == [] then [] else RowsIn(indexed[..|indexed| - 1]) + [indexed[|indexed| - 1].row]
  }

  function WithFacets(a: Facets, b: Facets): Facets {
    Facets(a.nodes + b.nodes, a.models + b.models, a.protocols + b.protocols)
  }

  /** The transaction of one window, once the index is found where it was read. */
  function Advanced(db: Db, end: nat, indexed: seq<Indexed>): Db {
    Db(NextMeta(db.meta, end, indexed), db.rows + RowsIn(indexed), WithFacets(db.facets, FacetsOf(RowsIn(indexed))))
  }

  lemma FacetsAppend(a: seq<Row>, b: seq<Row>)
    ensures WithFacets(FacetsOf(a), FacetsOf(b)) == FacetsOf(a + b)
  {
    var all := a + b;
    assert forall i :: 0 <= i < |a| ==> all[i] == a[i];
    assert forall i :: 0 <= i < |b| ==> all[|a| + i] == b[i];
    assert FacetsOf(a).nodes + FacetsOf(b).nodes == FacetsOf(all).nodes;
    assert FacetsOf(a).models + FacetsOf(b).models == FacetsOf(all).models;
    assert FacetsOf(a).protocols + FacetsOf(b).protocols == FacetsOf(all).protocols;
  }

  lemma RowsAppend(rows: seq<Row>, lines: seq<Line>, indexed: seq<Indexed>, more: seq<Line>, parse: Parser)
    requires RowsMatch(rows, lines, parse) && IndexedMatch(indexed, more, |lines|, parse)
    ensures RowsMatch(rows + RowsIn(indexed), lines + more, parse)
  {
  }

  lemma NextMetaIsMeta(base: nat, end: nat, lines: seq<Line>, indexed: seq<Indexed>, more: seq<Line>, parse: Parser)
    requires IndexedMatch(indexed, more, |lines|, parse)
    ensures NextMeta(MetaOf(base, lines), end, indexed) == MetaOf(base + end, lines + more)
  {
    if more == [] {
      assert lines + more == lines;
    } else {
      assert indexed[0] == IndexedFor(|lines|, more[0], parse);
      assert indexed[|more| - 1] == IndexedFor(|lines| + |more| - 1, more[|more| - 1], parse);
    }
  }

  lemma AdvancedIsIndex(db: Db, base: nat, lines: seq<Line>, indexed: seq<Indexed>, more: seq<Line>, end: nat,
      parse: Parser)
    requires IsIndex(db, base, lines, parse) && IndexedMatch(indexed, more, |lines|, parse)
    ensures IsIndex(Advanced(db, end, indexed), base + end, lines + more, parse)
  {
    RowsAppend(db.rows, lines, indexed, more, parse);
    NextMetaIsMeta(base, end, lines, indexed, more, parse);
    FacetsAppend(db.rows, RowsIn(indexed));
  }

  lemma CountIsLines(db: Db, end: nat, lines: seq<Line>, parse: Parser)
    requires IsIndex(db, end, lines, parse)
    ensures db.meta.count == |lines|
  {
  }

  lemma ConsistentFrom(log: Bytes, db: Db, end: nat, lines: seq<Line>, parse: Parser)
    requires Boundary(log, end) && lines == Lines(log, end) && AllParse(lines, parse) && IsIndex(db, end, lines, parse)
    ensures Consistent(log, db, parse)
  {
  }

  lemma WindowEnd(log: Bytes, base: nat, bytes: Bytes, end: nat)
    requires Window(log, base, bytes, end)
    ensures Boundary(log, base + end)
  {
    assert end > 0 ==> log[base + end - 1] == bytes[end - 1];
  }

  /** Committing the rows of a window into a consistent index leaves the index of the longer prefix. */
  lemma CommitIsConsistent(log: Bytes, db: Db, base: nat, bytes: Bytes, end: nat, indexed: seq<Indexed>,
      more: seq<Line>, parse: Parser)
    requires Consistent(log, db, parse) && base == db.meta.committed && Window(log, base, bytes, end)
    requires more == WindowLines(bytes, end, base, 0) && AllParse(more, parse)
             && IndexedMatch(indexed, more, db.meta.count, parse)
    ensures Consistent(log, Advanced(db, end, indexed), parse)
  {
    hide Lines, WindowLines, AllParse, IsIndex, IndexedMatch, Advanced;
    WindowEnd(log, base, bytes, end);
    WindowAddsLines(log, base, bytes, end, 0);
    AllParseAppend(Lines(log, base), more, parse);
    CountIsLines(db, base, Lines(log, base), parse);
    AdvancedIsIndex(db, base, Lines(log, base), indexed, more, end, parse);
    ConsistentFrom(log, Advanced(db, end, indexed), base + end, Lines(log, base) + more, parse);
  }

  // ----- Catching up

  /** How far a process that saw `size` bytes can index: the last newline it can read. */
  function Reachable(log: Bytes, size: nat): (end: nat)
    ensures end <= size && Boundary(log, end)
  {
    CommittedLength(log[..Visible(log, size)])
  }

  /** `stat` runs before the reads: the log may have grown past `size` since, or been cut below it. */
  function Visible(log: Bytes, size: nat): (n: nat)
    ensures n <= |log| && n <= size
  {
    if size < |log| then size else |log|
  }

  lemma ReachableAtLeast(log: Bytes, size: nat, end: nat)
    requires Boundary(log, end) && end <= size
    ensures end <= Reachable(log, size)
  {
    assert end > 0 ==> log[..Visible(log, size)][end - 1] == log[end - 1];
    CommittedAtLeast(log[..Visible(log, size)], end);
  }

  lemma NothingReachable(log: Bytes, size: nat, base: nat, bytes: Bytes)
    requires Boundary(log, base) && base <= Visible(log, size) && bytes == log[base..Visible(log, size)]
             && CommittedLength(bytes) == 0
    ensures Reachable(log, size) == base
  {
    var seen := log[..Visible(log, size)];
    assert forall i :: base <= i < |seen| ==> seen[i] == bytes[i - base];
    CommittedIs(seen, base);
  }

  /** Reads a window that holds a whole line, doubling it until it does or reaches the end of what the process saw. */
  method ReadWindow(log: Bytes, base: nat, size: nat) returns (bytes: Bytes)
    requires base < size && base <= |log|
    ensures base + |bytes| <= Visible(log, size) && bytes == log[base..base + |bytes|]
    ensures CommittedLength(bytes) > 0 || base + |bytes| == Visible(log, size)
  {
    hide CommittedLength;
    var window := if size - base < CHUNK_BYTES then size - base else CHUNK_BYTES;
    bytes := ReadRange(log, base, window);
    while CommittedLength(bytes) == 0 && base + window < size
      invariant 0 < window <= size - base && bytes == ReadRange(log, base, window)
      decreases size - base - window
    {
      window := if size - base < window * 2 then size - base else window * 2;
      bytes := ReadRange(log, base, window);
    }
  }

  /** A window that does not parse is met by every scan that reaches past it. */
  lemma BadWindowFails(log: Bytes, base: nat, bytes: Bytes, end: nat, later: nat, parse: Parser)
    requires Window(log, base, bytes, end) && base + end <= later && Boundary(log, later)
    requires !AllParse(WindowLines(bytes, end, base, 0), parse)
    ensures !AllParse(Lines(log, later), parse)
  {
    hide Lines, WindowLines, AllParse;
    var more := WindowLines(bytes, end, base, 0);
    WindowEnd(log, base, bytes, end);
    WindowAddsLines(log, base, bytes, end, 0);
    AllParseAppend(Lines(log, base), more, parse);
    MoreLines(log, base + end, later);
    var rest := Lines(log, later)[|Lines(log, base + end)|..];
    assert Lines(log, later) == Lines(log, base + end) + rest;
    AllParseAppend(Lines(log, base + end), rest, parse);
  }

  /** One process's open index. */
  class Session {
    const parse: Parser
    var db: Db

    constructor (db: Db, parse: Parser)
      ensures this.db == db && this.parse == parse
    {
      this.db := db;
      this.parse := parse;
    }

    /**
     * Brings the index up to date with the log. A line that does not parse stops it; the windows
     * before that line stay committed, and so does all that was indexed before, unless it was
     * stale. No other process commits meanwhile: see ConcurrentIndexers for the interleavings.
     */
    method Synchronise(log: Bytes, size: nat) returns (ok: bool)
      requires Consistent(log, db, parse) || Stale(log, size, db.meta)
      modifies this
      ensures Consistent(log, db, parse)
      ensures ok <==> AllParse(Lines(log, Reachable(log, size)), parse)
      ensures ok ==> db.meta.committed == Reachable(log, size)
      ensures !old(Stale(log, size, db.meta)) ==> old(db.rows) <= db.rows
    {
      hide Lines, WindowLines, AllParse, IndexedMatch, Advanced, Reachable, Stale, MetaOf, RowsMatch, FacetsOf;
      if Stale(log, size, db.meta) {
        EmptyIsConsistent(log, parse);
        db := EMPTY_DB;
      } else {
        MetaIsStaleIffLonger(log, db.meta, size);
        ReachableAtLeast(log, size, db.meta.committed);
      }
      while db.meta.committed < size
        invariant Consistent(log, db, parse) && db.meta.committed <= Reachable(log, size)
        invariant !old(Stale(log, size, db.meta)) ==> old(db.rows) <= db.rows
        decreases size - db.meta.committed
      {
        var base := db.meta.committed;
        var bytes := ReadWindow(log, base, size);
        var end := CommittedLength(bytes);
        if end == 0 {
          NothingReachable(log, size, base, bytes);
          break;
        }
        var rows := IndexWindow(bytes, end, base, db.meta.count, parse);
        ghost var more := WindowLines(bytes, end, base, 0);
        if rows.None? {
          WindowReaches(log, size, base, bytes, end);
          BadWindowFails(log, base, bytes, end, Reachable(log, size), parse);
          return false;
        }
        CommitIsConsistent(log, db, base, bytes, end, rows.value, more, parse);
        WindowReaches(log, size, base, bytes, end);
        AdvancedEnd(db, end, rows.value);
        db := Advanced(db, end, rows.value);
      }
      ok := true;
    }
  }

  lemma AdvancedEnd(db: Db, end: nat, indexed: seq<Indexed>)
    ensures Advanced(db, end, indexed).meta.committed == db.meta.committed + end
    ensures db.rows <= Advanced(db, end, indexed).rows
  {
  }

  lemma WindowReaches(log: Bytes, size: nat, base: nat, bytes: Bytes, end: nat)
    requires Window(log, base, bytes, end) && base + |bytes| <= size
    ensures base + end <= Reachable(log, size)
  {
    WindowEnd(log, base, bytes, end);
    ReachableAtLeast(log, size, base + end);
  }
}
