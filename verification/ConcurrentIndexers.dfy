/** Several processes catch one index up, each with its own
    view of the log's size, by compare-and-swap on `committed`. */
module ConcurrentIndexers {
  import opened Hashing
  import opened Options
  import opened TraceLog
  import opened TraceIndex

  /** What a process does next. */
  datatype Phase = Opened | Checking | Resetting | Ready | Planned(end: nat, indexed: seq<Indexed>)

  /** A process: the size it saw when it opened the log, and the metadata it last read or wrote. */
  datatype Proc = Proc(size: nat, meta: Meta, phase: Phase)

  datatype Sys = Sys(log: Bytes, db: Db, procs: map<nat, Proc>)

  /** One atomic step: of the log's writer, or of the process named. */
  datatype Event =
    | Append(bytes: Bytes)
    | Recover
    | Open(id: nat)
    | ReadMeta(id: nat)
    | Check(id: nat)
    | Reset(id: nat)
    | Plan(id: nat)
    | Commit(id: nat)
    | Close(id: nat)

  predicate In(s: Sys, id: nat, phase: Phase) { id in s.procs && s.procs[id].phase == phase }

  function With(s: Sys, id: nat, p: Proc): Sys { s.(procs := s.procs[id := p]) }

  function Without(s: Sys, id: nat): Sys { s.(procs := s.procs - {id}) }

  /** The bytes of the next window: doubled until it holds a newline or reaches the end of what the process saw. */
  function NextWindow(log: Bytes, base: nat, size: nat, window: nat): Bytes
    requires 0 < window <= size - base
    decreases size - base - window
  {
    var bytes := ReadRange(log, base, window);
    if CommittedLength(bytes) == 0 && base + window < size
    then NextWindow(log, base, size, if size - base < window * 2 then size - base else window * 2)
    else bytes
  }

  /** The rows of complete lines, numbered from `count`; none if a line does not parse. */
  function RowsFor(lines: seq<Line>, count: nat, parse: Parser): (r: Option<seq<Indexed>>)
    ensures r.Some? <==> AllParse(lines, parse)
    ensures r.Some? ==> IndexedMatch(r.value, lines, count, parse)
  {
    if lines == [] then Some([])
    else
      var front, last := RowsFor(lines[..|lines| - 1], count, parse), lines[|lines| - 1];
      assert lines == lines[..|lines| - 1] + [last];
      AllParseAppend(lines[..|lines| - 1], [last], parse);
      if front.None? || parse(last.text).None? then None
      else Some(front.value + [IndexedFor(count + |lines| - 1, last, parse)])
  }

  /** Reads the next window: done when it holds no line, gone when a line does not parse. */
  function PlanStep(s: Sys, id: nat, parse: Parser): Sys
    requires id in s.procs
  {
    var p := s.procs[id];
    var base := p.meta.committed;
    if base >= p.size then Without(s, id)
    else
      var bytes := NextWindow(s.log, base, p.size, if p.size - base < CHUNK_BYTES then p.size - base else CHUNK_BYTES);
      var end := CommittedLength(bytes);
      var rows := RowsFor(WindowLines(bytes, end, base, 0), p.meta.count, parse);
      if end == 0 || rows.None? then Without(s, id) else With(s, id, p.(phase := Planned(end, rows.value)))
  }

  /** The transaction: only extends the exact prefix the process read from, else reads the metadata again. */
  function CommitStep(s: Sys, id: nat): Sys
    requires id in s.procs && s.procs[id].phase.Planned?
  {
    var p := s.procs[id];
    var rows := RowsIn(p.phase.indexed);
    if s.db.meta.committed != p.meta.committed then With(s, id, p.(meta := s.db.meta, phase := Ready))
    else
      var next := NextMeta(p.meta, p.phase.end, p.phase.indexed);
      With(s, id, p.(meta := next, phase := Ready)).(db := Db(next, s.db.rows + rows,
          WithFacets(s.db.facets, FacetsOf(rows))))
  }

  /** The step of an event; an event that is not enabled changes nothing. */
  function Apply(s: Sys, e: Event, parse: Parser): Sys {
    match e
    case Append(bytes) => s.(log := s.log + bytes)
    case Recover => s.(log := Recovered(s.log))
    case Open(id) => if id in s.procs then s else With(s, id, Proc(|s.log|, EMPTY_META, Opened))
    case ReadMeta(id) =>
      if In(s, id, Opened) then With(s, id, s.procs[id].(meta := s.db.meta, phase := Checking)) else s
    case Check(id) =>
      if In(s, id, Checking)
      then With(s, id, s.procs[id].(phase := if Stale(s.log, s.procs[id].size,
          s.procs[id].meta) then Resetting else Ready))
      else s
    case Reset(id) =>
      if In(s, id, Resetting) then With(s, id, s.procs[id].(meta := EMPTY_META, phase := Ready)).(db := EMPTY_DB) else s
    case Plan(id) => if In(s, id, Ready) then PlanStep(s, id, parse) else s
    case Commit(id) => if id in s.procs && s.procs[id].phase.Planned? then CommitStep(s, id) else s
    case Close(id) => Without(s, id)
  }

  function Run(s: Sys, events: seq<Event>, parse: Parser): Sys {
    if events == [] then s else Apply(Run(s, events[..|events| - 1], parse), events[|events| - 1], parse)
  }

  // ----- What every step keeps

  /** Metadata of some prefix of the log. */
  ghost predicate MetaFits(log: Bytes, meta: Meta, parse: Parser) {
    && Boundary(log, meta.committed) && AllParse(Lines(log, meta.committed), parse)
    && meta == MetaOf(meta.committed, Lines(log, meta.committed))
  }

  /** The planned rows are those of the lines the log holds from `base` to `base + end`. */
  ghost predicate PlanFits(log: Bytes, base: nat, end: nat, indexed: seq<Indexed>, more: seq<Line>, parse: Parser) {
    && Boundary(log, base) && Boundary(log, base + end)
    && Lines(log, base + end) == Lines(log, base) + more
    && AllParse(more, parse) && IndexedMatch(indexed, more, |Lines(log, base)|, parse)
  }

  ghost predicate ProcFits(log: Bytes, p: Proc, parse: Parser) {
    && MetaFits(log, p.meta, parse)
    && (p.phase.Planned? ==> exists more :: PlanFits(log, p.meta.committed, p.phase.end, p.phase.indexed, more, parse))
  }

  ghost predicate Inv(s: Sys, parse: Parser) {
    && Consistent(s.log, s.db, parse)
    && forall id :: id in s.procs ==> ProcFits(s.log, s.procs[id], parse)
  }

  lemma MetaFitsLater(before: Bytes, after: Bytes, meta: Meta, parse: Parser)
    requires MetaFits(before, meta, parse) && KeepsCommitted(before, after)
    ensures MetaFits(after, meta, parse)
  {
    CommittedLinesAreStable(before, after, meta.committed);
  }

  lemma PlanFitsLater(before: Bytes, after: Bytes, base: nat, end: nat, indexed: seq<Indexed>, more: seq<Line>,
      parse: Parser)
    requires PlanFits(before, base, end, indexed, more, parse) && KeepsCommitted(before, after)
    ensures PlanFits(after, base, end, indexed, more, parse)
  {
    CommittedLinesAreStable(before, after, base);
    CommittedLinesAreStable(before, after, base + end);
  }

  lemma ProcFitsLater(before: Bytes, after: Bytes, p: Proc, parse: Parser)
    requires ProcFits(before, p, parse) && KeepsCommitted(before, after)
    ensures ProcFits(after, p, parse)
  {
    hide MetaFits, PlanFits, KeepsCommitted;
    MetaFitsLater(before, after, p.meta, parse);
    if p.phase.Planned? {
      var more :| PlanFits(before, p.meta.committed, p.phase.end, p.phase.indexed, more, parse);
      PlanFitsLater(before, after, p.meta.committed, p.phase.end, p.phase.indexed, more, parse);
    }
  }

  lemma LogStepKeeps(s: Sys, log: Bytes, parse: Parser)
    requires Inv(s, parse) && KeepsCommitted(s.log, log)
    ensures Inv(s.(log := log), parse)
  {
    hide Consistent, ProcFits, KeepsCommitted;
    ConsistentLater(s.log, log, s.db, parse);
    forall id | id in s.procs ensures ProcFits(log, s.procs[id], parse) {
      ProcFitsLater(s.log, log, s.procs[id], parse);
    }
  }

  lemma DbMetaFits(log: Bytes, db: Db, parse: Parser)
    requires Consistent(log, db, parse)
    ensures MetaFits(log, db.meta, parse)
  {
  }

  lemma EmptyMetaFits(log: Bytes, parse: Parser)
    ensures MetaFits(log, EMPTY_META, parse)
  {
  }

  lemma IdleFits(log: Bytes, p: Proc, parse: Parser)
    requires MetaFits(log, p.meta, parse) && !p.phase.Planned?
    ensures ProcFits(log, p, parse)
  {
  }

  lemma WithFits(s: Sys, id: nat, p: Proc, parse: Parser)
    requires Inv(s, parse) && ProcFits(s.log, p, parse)
    ensures Inv(With(s, id, p), parse)
  {
    hide Consistent, ProcFits;
  }

  // ----- Planning

  lemma {:induction false} NextWindowIsWindow(log: Bytes, base: nat, size: nat, window: nat)
    requires 0 < window <= size - base && Boundary(log, base)
    ensures var bytes := NextWindow(log, base, size, window);
            Window(log, base, bytes, CommittedLength(bytes))
    decreases size - base - window
  {
    hide CommittedLength;
    if CommittedLength(ReadRange(log, base, window)) == 0 && base + window < size {
      NextWindowIsWindow(log, base, size, if size - base < window * 2 then size - base else window * 2);
    }
  }

  lemma WindowPlanFits(log: Bytes, base: nat, bytes: Bytes, end: nat, indexed: seq<Indexed>, parse: Parser)
    requires Window(log, base, bytes, end) && AllParse(WindowLines(bytes, end, base, 0), parse)
    requires IndexedMatch(indexed, WindowLines(bytes, end, base, 0), |Lines(log, base)|, parse)
    ensures PlanFits(log, base, end, indexed, WindowLines(bytes, end, base, 0), parse)
  {
    hide Lines, WindowLines, AllParse, IndexedMatch;
    WindowEnd(log, base, bytes, end);
    WindowAddsLines(log, base, bytes, end, 0);
  }

  lemma MetaCount(log: Bytes, meta: Meta, parse: Parser)
    requires MetaFits(log, meta, parse)
    ensures Boundary(log, meta.committed) && meta.count == |Lines(log, meta.committed)|
  {
    hide Lines, AllParse;
  }

  lemma WithoutFits(s: Sys, id: nat, parse: Parser)
    requires Inv(s, parse)
    ensures Inv(Without(s, id), parse)
  {
    hide Consistent, ProcFits;
  }

  lemma PlannedFits(log: Bytes, p: Proc, more: seq<Line>, parse: Parser)
    requires MetaFits(log, p.meta, parse) && p.phase.Planned?
    requires PlanFits(log, p.meta.committed, p.phase.end, p.phase.indexed, more, parse)
    ensures ProcFits(log, p, parse)
  {
    hide MetaFits, PlanFits;
  }

  lemma ProcMeta(log: Bytes, p: Proc, parse: Parser)
    requires ProcFits(log, p, parse)
    ensures MetaFits(log, p.meta, parse)
  {
  }

  lemma PlanKeeps(s: Sys, id: nat, parse: Parser)
    requires Inv(s, parse) && id in s.procs
    ensures Inv(PlanStep(s, id, parse), parse)
  {
    hide Consistent, ProcFits, MetaFits, PlanFits, NextWindow, CommittedLength, RowsFor, WindowLines, Window, AllParse,
        IndexedMatch, Lines, Inv;
    InvParts(s, id, parse);
    var p := s.procs[id];
    var base := p.meta.committed;
    ProcMeta(s.log, p, parse);
    MetaCount(s.log, p.meta, parse);
    WithoutFits(s, id, parse);
    if base < p.size {
      var window := if p.size - base < CHUNK_BYTES then p.size - base else CHUNK_BYTES;
      var bytes := NextWindow(s.log, base, p.size, window);
      var end := CommittedLength(bytes);
      NextWindowIsWindow(s.log, base, p.size, window);
      var more := WindowLines(bytes, end, base, 0);
      var rows := RowsFor(more, p.meta.count, parse);
      if rows.Some? {
        WindowPlanFits(s.log, base, bytes, end, rows.value, parse);
        PlannedFits(s.log, p.(phase := Planned(end, rows.value)), more, parse);
        WithFits(s, id, p.(phase := Planned(end, rows.value)), parse);
      }
    }
  }

  lemma InvParts(s: Sys, id: nat, parse: Parser)
    requires Inv(s, parse) && id in s.procs
    ensures Consistent(s.log, s.db, parse) && ProcFits(s.log, s.procs[id], parse)
  {
  }

  // ----- Committing

  /** Two processes at the same boundary hold the same metadata: it is a function of the log's prefix. */
  lemma SameBoundarySameMeta(log: Bytes, a: Meta, b: Meta, parse: Parser)
    requires MetaFits(log, a, parse) && MetaFits(log, b, parse) && a.committed == b.committed
    ensures a == b
  {
  }

  lemma PlanCommits(log: Bytes, db: Db, end: nat, indexed: seq<Indexed>, more: seq<Line>, parse: Parser)
    requires Consistent(log, db, parse) && PlanFits(log, db.meta.committed, end, indexed, more, parse)
    ensures Consistent(log, Advanced(db, end, indexed), parse)
  {
    hide Lines, AllParse, IndexedMatch, IsIndex, Advanced;
    var base := db.meta.committed;
    AllParseAppend(Lines(log, base), more, parse);
    AdvancedIsIndex(db, base, Lines(log, base), indexed, more, end, parse);
    ConsistentFrom(log, Advanced(db, end, indexed), base + end, Lines(log, base) + more, parse);
  }

  lemma CommitKeeps(s: Sys, id: nat, parse: Parser)
    requires Inv(s, parse) && id in s.procs && s.procs[id].phase.Planned?
    ensures Inv(CommitStep(s, id), parse)
  {
    hide Consistent, ProcFits, MetaFits, PlanFits, Inv, NextMeta;
    var p := s.procs[id];
    InvParts(s, id, parse);
    DbMetaFits(s.log, s.db, parse);
    ProcMeta(s.log, p, parse);
    if s.db.meta.committed != p.meta.committed {
      IdleFits(s.log, p.(meta := s.db.meta, phase := Ready), parse);
      WithFits(s, id, p.(meta := s.db.meta, phase := Ready), parse);
    } else {
      SameBoundarySameMeta(s.log, s.db.meta, p.meta, parse);
      var more := PlanOf(s.log, p, parse);
      PlanCommits(s.log, s.db, p.phase.end, p.phase.indexed, more, parse);
      var db := Advanced(s.db, p.phase.end, p.phase.indexed);
      DbMetaFits(s.log, db, parse);
      IdleFits(s.log, p.(meta := db.meta, phase := Ready), parse);
      DbFits(s, db, parse);
      WithFits(s.(db := db), id, p.(meta := db.meta, phase := Ready), parse);
    }
  }

  lemma PlanOf(log: Bytes, p: Proc, parse: Parser) returns (more: seq<Line>)
    requires ProcFits(log, p, parse) && p.phase.Planned?
    ensures PlanFits(log, p.meta.committed, p.phase.end, p.phase.indexed, more, parse)
  {
    hide PlanFits, MetaFits;
    more :| PlanFits(log, p.meta.committed, p.phase.end, p.phase.indexed, more, parse);
  }

  lemma DbFits(s: Sys, db: Db, parse: Parser)
    requires Inv(s, parse) && Consistent(s.log, db, parse)
    ensures Inv(s.(db := db), parse)
  {
    hide Consistent, ProcFits;
  }

  // ----- Every run

  lemma MetaStepKeeps(s: Sys, id: nat, meta: Meta, phase: Phase, parse: Parser)
    requires Inv(s, parse) && id in s.procs && MetaFits(s.log, meta, parse) && !phase.Planned?
    ensures Inv(With(s, id, s.procs[id].(meta := meta, phase := phase)), parse)
  {
    hide Inv, MetaFits, ProcFits;
    IdleFits(s.log, s.procs[id].(meta := meta, phase := phase), parse);
    WithFits(s, id, s.procs[id].(meta := meta, phase := phase), parse);
  }

  lemma OpenKeeps(s: Sys, id: nat, size: nat, parse: Parser)
    requires Inv(s, parse)
    ensures Inv(With(s, id, Proc(size, EMPTY_META, Opened)), parse)
  {
    hide Inv, MetaFits, ProcFits;
    EmptyMetaFits(s.log, parse);
    IdleFits(s.log, Proc(size, EMPTY_META, Opened), parse);
    WithFits(s, id, Proc(size, EMPTY_META, Opened), parse);
  }

  lemma ResetKeeps(s: Sys, id: nat, parse: Parser)
    requires Inv(s, parse) && id in s.procs
    ensures Inv(With(s, id, s.procs[id].(meta := EMPTY_META, phase := Ready)).(db := EMPTY_DB), parse)
  {
    hide Inv, MetaFits, Consistent;
    EmptyMetaFits(s.log, parse);
    MetaStepKeeps(s, id, EMPTY_META, Ready, parse);
    EmptyIsConsistent(s.log, parse);
    DbFits(With(s, id, s.procs[id].(meta := EMPTY_META, phase := Ready)), EMPTY_DB, parse);
  }

  lemma StepKeeps(s: Sys, e: Event, parse: Parser)
    requires Inv(s, parse)
    ensures Inv(Apply(s, e, parse), parse)
  {
    hide Inv, Consistent, MetaFits, ProcFits, Stale, PlanStep, CommitStep, Recovered, KeepsCommitted, Without;
    match e
    case Append(bytes) =>
      AppendAndRecoveryKeepCommitted(s.log, bytes);
      LogStepKeeps(s, s.log + bytes, parse);
    case Recover =>
      AppendAndRecoveryKeepCommitted(s.log, []);
      LogStepKeeps(s, Recovered(s.log), parse);
    case Open(id) => OpenKeeps(s, id, |s.log|, parse);
    case ReadMeta(id) =>
      if In(s, id, Opened) {
        InvParts(s, id, parse);
        DbMetaFits(s.log, s.db, parse);
        MetaStepKeeps(s, id, s.db.meta, Checking, parse);
      }
    case Check(id) =>
      if In(s, id, Checking) {
        InvParts(s, id, parse);
        ProcMeta(s.log, s.procs[id], parse);
        MetaStepKeeps(s, id, s.procs[id].meta, Resetting, parse);
        MetaStepKeeps(s, id, s.procs[id].meta, Ready, parse);
      }
    case Reset(id) => if In(s, id, Resetting) { ResetKeeps(s, id, parse); }
    case Plan(id) => if In(s, id, Ready) { PlanKeeps(s, id, parse); }
    case Commit(id) => if id in s.procs && s.procs[id].phase.Planned? { CommitKeeps(s, id, parse); }
    case Close(id) => WithoutFits(s, id, parse);
  }

  /** Whatever the interleaving, the index and every process's metadata stay those of a prefix of the log. */
  lemma {:induction false} RunKeeps(log: Bytes, events: seq<Event>, parse: Parser)
    ensures Inv(Run(Sys(log, EMPTY_DB, map[]), events, parse), parse)
  {
    hide Inv, Apply;
    if events == [] {
      StartFits(log, parse);
    } else {
      RunKeeps(log, events[..|events| - 1], parse);
      StepKeeps(Run(Sys(log, EMPTY_DB, map[]), events[..|events| - 1], parse), events[|events| - 1], parse);
    }
  }

  lemma StartFits(log: Bytes, parse: Parser)
    ensures Inv(Sys(log, EMPTY_DB, map[]), parse)
  {
    EmptyIsConsistent(log, parse);
  }

  // ----- Progress

  /** The transaction advances the index if no other process did since the window was read,
      and in no other case; either way the process goes on from what the index then is. */
  lemma CommitAdvancesIffUntouched(s: Sys, id: nat, parse: Parser)
    requires Inv(s, parse) && id in s.procs && s.procs[id].phase.Planned?
    ensures var p := s.procs[id];
            var after := CommitStep(s, id);
            && id in after.procs && after.procs[id] == Proc(p.size, after.db.meta, Ready)
            && (s.db.meta.committed == p.meta.committed ==>
                after.db.meta.committed == s.db.meta.committed + p.phase.end)
            && (s.db.meta.committed != p.meta.committed ==> after.db == s.db)
            && after.log == s.log && forall other :: other != id ==>
                 (other in after.procs <==> other in s.procs)
                 && (other in s.procs ==> after.procs[other] == s.procs[other])
  {
    hide Consistent, ProcFits, Inv;
    InvParts(s, id, parse);
    ProcMeta(s.log, s.procs[id], parse);
    DbMetaFits(s.log, s.db, parse);
  }

  lemma {:induction false} NextWindowReads(log: Bytes, base: nat, size: nat, window: nat)
    requires 0 < window <= size - base && base <= |log|
    ensures var bytes := NextWindow(log, base, size, window);
            && base + |bytes| <= Visible(log, size) && bytes == log[base..base + |bytes|]
            && (CommittedLength(bytes) > 0 || base + |bytes| == Visible(log, size))
    decreases size - base - window
  {
    hide CommittedLength;
    if CommittedLength(ReadRange(log, base, window)) == 0 && base + window < size {
      NextWindowReads(log, base, size, if size - base < window * 2 then size - base else window * 2);
    }
  }

  lemma ReachableWithin(log: Bytes, size: nat)
    ensures Reachable(log, size) <= size
  {
  }

  /** The next window ends within reach, is empty only at the end of it, and fails the scan up to there if it fails. */
  lemma NextWindowReaches(log: Bytes, base: nat, size: nat, parse: Parser)
    requires base < size && Boundary(log, base)
    ensures var bytes := NextWindow(log, base, size, if size - base < CHUNK_BYTES then size - base else CHUNK_BYTES);
            var end := CommittedLength(bytes);
            && Window(log, base, bytes, end) && base + end <= Reachable(log, size)
            && (end == 0 ==> Reachable(log, size) == base)
            && (!AllParse(WindowLines(bytes, end, base, 0), parse) ==>
                !AllParse(Lines(log, Reachable(log, size)), parse))
  {
    hide NextWindow, CommittedLength, WindowLines, AllParse, Lines;
    var window := if size - base < CHUNK_BYTES then size - base else CHUNK_BYTES;
    var bytes := NextWindow(log, base, size, window);
    var end := CommittedLength(bytes);
    NextWindowReads(log, base, size, window);
    NextWindowIsWindow(log, base, size, window);
    WindowEnd(log, base, bytes, end);
    ReachableAtLeast(log, size, base + end);
    if end == 0 {
      NothingReachable(log, size, base, bytes);
    }
    if !AllParse(WindowLines(bytes, end, base, 0), parse) {
      BadWindowFails(log, base, bytes, end, Reachable(log, size), parse);
    }
  }

  /** A process is done exactly when it can read no further line, or the next window holds
      one that does not parse; otherwise it plans at least one line more, within what it saw. */
  lemma PlansWhileItCan(s: Sys, id: nat, parse: Parser)
    requires Inv(s, parse) && id in s.procs
    ensures var p := s.procs[id];
            var after := PlanStep(s, id, parse);
            && after.log == s.log && after.db == s.db
            && (id in after.procs ==>
                && after.procs[id].meta == p.meta && after.procs[id].size == p.size && after.procs[id].phase.Planned?
                && 0 < after.procs[id].phase.end
                && p.meta.committed + after.procs[id].phase.end <= Reachable(s.log, p.size))
            && (id !in after.procs ==>
                || Reachable(s.log, p.size) <= p.meta.committed
                || !AllParse(Lines(s.log, Reachable(s.log, p.size)), parse))
  {
    hide Consistent, ProcFits, MetaFits, NextWindow, CommittedLength, RowsFor, WindowLines, AllParse, Lines, Inv,
      Window, Boundary, Reachable;
    InvParts(s, id, parse);
    var p := s.procs[id];
    ProcMeta(s.log, p, parse);
    MetaCount(s.log, p.meta, parse);
    if p.meta.committed < p.size {
      NextWindowReaches(s.log, p.meta.committed, p.size, parse);
    } else {
      ReachableWithin(s.log, p.size);
    }
  }

  /** Some windows of one process, planned and committed with no other process between. */
  function Rounds(s: Sys, id: nat, n: nat, parse: Parser): Sys
    decreases n
  {
    if n == 0 then s else Rounds(Apply(Apply(s, Plan(id), parse), Commit(id), parse), id, n - 1, parse)
  }

  /** A process that is let alone finishes, and leaves the index of every line it could read. */
  lemma {:induction false} CatchesUpAlone(s: Sys, id: nat, n: nat, parse: Parser)
    requires Inv(s, parse) && In(s, id, Ready) && s.procs[id].meta == s.db.meta
    requires AllParse(Lines(s.log, Reachable(s.log, s.procs[id].size)), parse)
    requires n > Reachable(s.log, s.procs[id].size) - s.db.meta.committed && n > 0
    ensures var after := Rounds(s, id, n, parse);
            var reachable := Reachable(s.log, s.procs[id].size);
            && id !in after.procs && after.log == s.log
            && after.db.meta.committed == if reachable < s.db.meta.committed then s.db.meta.committed else reachable
    decreases n
  {
    hide Inv, PlanStep, CommitStep, Lines, AllParse, Reachable;
    var planned := Apply(s, Plan(id), parse);
    PlansWhileItCan(s, id, parse);
    StepKeeps(s, Plan(id), parse);
    var committed := Apply(planned, Commit(id), parse);
    if id in planned.procs {
      CommitAdvancesIffUntouched(planned, id, parse);
      StepKeeps(planned, Commit(id), parse);
      CatchesUpAlone(committed, id, n - 1, parse);
    } else {
      DoneStaysDone(planned, id, n - 1, parse);
    }
  }

  lemma {:induction false} DoneStaysDone(s: Sys, id: nat, n: nat, parse: Parser)
    requires id !in s.procs
    ensures Rounds(s, id, n, parse) == s
    decreases n
  {
    if n > 0 {
      DoneStaysDone(s, id, n - 1, parse);
    }
  }

  // ----- What a run can and cannot do to the index

  /** The rows have dense IDs and stand, one for one and in
      order, for the committed non-empty lines of the full scan. */
  lemma EachLineIsIndexedOnce(log: Bytes, events: seq<Event>, parse: Parser, i: nat)
    ensures var s := Run(Sys(log, EMPTY_DB, map[]), events, parse);
            && Boundary(s.log, s.db.meta.committed)
            && var lines := Lines(s.log, s.db.meta.committed);
            && |s.db.rows| == |lines| == s.db.meta.count
            && TextsOf(lines) == PartsBefore(s.log, s.db.meta.committed)
            && (i < |lines| ==>
                s.db.rows[i] == RowFor(i, lines[i], TraceOf(lines[i], parse))
                && StandsIn(s.log, lines[i], s.db.meta.committed))
  {
    hide Run, Lines, TextsOf, PartsBefore, ProcFits, FacetsOf, AllParse, StandsIn, RowFor;
    RunKeeps(log, events, parse);
    var s := Run(Sys(log, EMPTY_DB, map[]), events, parse);
    LinesAreTheSplit(s.log, s.db.meta.committed);
    LinesStand(s.log, s.db.meta.committed);
  }

  /** The first and last line on record are the first and last line indexed. */
  lemma AnchorsFitTheRows(log: Bytes, events: seq<Event>, parse: Parser)
    ensures var s := Run(Sys(log, EMPTY_DB, map[]), events, parse);
            Boundary(s.log, s.db.meta.committed) && s.db.rows != [] ==>
              var lines := Lines(s.log, s.db.meta.committed);
              && |lines| == |s.db.rows|
              && s.db.meta.first == AnchorOf(lines[0]) && s.db.meta.last == AnchorOf(lines[|lines| - 1])
              && s.db.meta.first.offset == s.db.rows[0].offset && s.db.meta.last.offset == s.db.rows[|lines| - 1].offset
  {
    hide Run, Lines, ProcFits, FacetsOf, AllParse;
    RunKeeps(log, events, parse);
  }

  /** A process discards the index exactly when it saw the log before another process indexed past what it saw. */
  lemma CheckResetsIffBehind(s: Sys, id: nat, parse: Parser)
    requires Inv(s, parse) && In(s, id, Checking)
    ensures In(Apply(s, Check(id), parse), id, Resetting) <==> s.procs[id].meta.committed > s.procs[id].size
  {
    hide Inv, Stale, AllParse, Lines, MetaOf;
    InvParts(s, id, parse);
    ProcMeta(s.log, s.procs[id], parse);
    MetaIsStaleIffLonger(s.log, s.procs[id].meta, s.procs[id].size);
  }

  /** `committed` goes down in one kind of step only. */
  lemma ShrinksIffReset(s: Sys, e: Event, parse: Parser)
    requires Inv(s, parse)
    ensures var t := Apply(s, e, parse);
            t.db.meta.committed < s.db.meta.committed <==>
                (e.Reset? && In(s, e.id, Resetting) && s.db.meta.committed > 0)
    ensures !(e.Reset? && In(s, e.id, Resetting)) ==> s.db.rows <= Apply(s, e, parse).db.rows
  {
    hide Inv, NextWindow, CommittedLength, RowsFor, WindowLines, Stale, Recovered, FacetsOf;
  }

  /** The check of a process that is behind the index. */
  predicate BehindCheck(s: Sys, e: Event) {
    e.Check? && In(s, e.id, Checking) && s.procs[e.id].meta.committed > s.procs[e.id].size
  }

  ghost predicate NoReset(s: Sys) { forall id :: id in s.procs ==> !s.procs[id].phase.Resetting? }

  lemma NoResetStep(s: Sys, e: Event, parse: Parser)
    requires Inv(s, parse) && NoReset(s) && !BehindCheck(s, e)
    ensures NoReset(Apply(s, e, parse)) && s.db.meta.committed <= Apply(s, e, parse).db.meta.committed
  {
    hide Inv, NextWindow, CommittedLength, RowsFor, WindowLines, Stale, Recovered, FacetsOf;
    ShrinksIffReset(s, e, parse);
    if e.Check? && In(s, e.id, Checking) {
      CheckResetsIffBehind(s, e.id, parse);
    }
  }

  ghost predicate NoBehindCheck(s: Sys, events: seq<Event>, parse: Parser) {
    forall k {:trigger events[k]} :: 0 <= k < |events| ==> !BehindCheck(Run(s, events[..k], parse), events[k])
  }

  /**
   * The index never shrinks in a run in which no process checks an index that is past the size
   * it saw. The other direction fails as soon as one does: see BehindCheckEmptiesTheIndex.
   */
  lemma {:induction false} NeverShrinks(log: Bytes, events: seq<Event>, k: nat, parse: Parser)
    requires k <= |events| && NoBehindCheck(Sys(log, EMPTY_DB, map[]), events, parse)
    ensures var start := Sys(log, EMPTY_DB, map[]);
            NoReset(Run(start, events, parse))
                && Run(start, events[..k], parse).db.meta.committed <= Run(start, events, parse).db.meta.committed
  {
    hide Apply, BehindCheck, Inv;
    var start := Sys(log, EMPTY_DB, map[]);
    if k == |events| {
      assert events[..k] == events;
    }
    if events != [] {
      var n := |events| - 1;
      var front := events[..n];
      forall j | 0 <= j < |front| ensures !BehindCheck(Run(start, front[..j], parse), front[j]) {
        assert front[..j] == events[..j] && front[j] == events[j];
      }
      RunKeeps(log, front, parse);
      NeverShrinks(log, front, if k < n then k else n, parse);
      if k <= n {
        assert front[..k] == events[..k];
      }
      NoResetStep(Run(start, front, parse), events[n], parse);
    }
  }

  /** Two steps of a process that is behind empty the index, however much of it the others had built. */
  lemma BehindCheckEmptiesTheIndex(s: Sys, id: nat, parse: Parser)
    requires Inv(s, parse) && BehindCheck(s, Check(id))
    ensures Apply(Apply(s, Check(id), parse), Reset(id), parse).db == EMPTY_DB
  {
    hide Inv, Stale;
    CheckResetsIffBehind(s, id, parse);
  }
  const SHORT_LOG: Bytes := [5, NEWLINE]
  const ADDED: Bytes := [6, NEWLINE]

  function LateStart(): Sys {
    Sys(SHORT_LOG + ADDED, EMPTY_DB, map[1 := Proc(2, EMPTY_META, Opened), 2 := Proc(4, EMPTY_META, Opened)])
  }

  lemma OneWindow(log: Bytes)
    requires log == SHORT_LOG + ADDED
    ensures NextWindow(log, 0, 4, 4) == log && CommittedLength(log) == 4
    ensures RowsFor(WindowLines(log, 4, 0, 0), 0, SampleTrace).Some?
  {
  }

  function Planning(s: Sys): Sys { Apply(Apply(s, ReadMeta(2), SampleTrace), Check(2), SampleTrace) }

  function Committing(s: Sys): Sys { Apply(Apply(s, Plan(2), SampleTrace), Commit(2), SampleTrace) }

  lemma SecondProcessPlans(s: Sys)
    requires s == LateStart()
    ensures In(Planning(s), 2, Ready) && Planning(s) == With(s, 2, Proc(4, EMPTY_META, Ready))
  {
    hide NextWindow, CommittedLength, RowsFor, WindowLines, ReadRange;
  }

  /** Process 2 indexes all of the log, which grew after process 1 looked at its size. */
  lemma SecondProcessCommits(s: Sys)
    requires s == With(LateStart(), 2, Proc(4, EMPTY_META, Ready))
    ensures Committing(s).db.meta.committed == 4 && In(Committing(s), 1, Opened) && Committing(s).procs[1].size == 2
  {
    hide NextWindow, CommittedLength, RowsFor, WindowLines, ReadRange;
    OneWindow(s.log);
    var t := Apply(s, Plan(2), SampleTrace);
    assert t.procs[2].phase.Planned? && t.procs[2].phase.end == 4;
  }

  /** So `committed` does go down in some runs: here from 4 to 0. */
  lemma TheIndexCanShrink(s: Sys)
    requires s == LateStart()
    ensures var t := Apply(Committing(Planning(s)), ReadMeta(1), SampleTrace);
            t.db.meta.committed == 4 && BehindCheck(t, Check(1))
                && Apply(Apply(t, Check(1), SampleTrace), Reset(1), SampleTrace).db == EMPTY_DB
  {
    hide Planning, Committing, ReadRange;
    SecondProcessPlans(s);
    SecondProcessCommits(Planning(s));
  }

  /** Both processes open the log before either synchronises it. */
  lemma LateStartIsReached()
    ensures Run(Sys(SHORT_LOG, EMPTY_DB, map[]), [Open(1), Append(ADDED), Open(2)], SampleTrace) == LateStart()
  {
    var start, events := Sys(SHORT_LOG, EMPTY_DB, map[]), [Open(1), Append(ADDED), Open(2)];
    assert events[..2][..1][..0] == [] && events[..2][..1] == [Open(1)] && events[..2] == [Open(1), Append(ADDED)];
    assert Run(start, events[..2][..1], SampleTrace) == Apply(start, Open(1), SampleTrace);
    assert Run(start, events[..2], SampleTrace)
        == Apply(Apply(start, Open(1), SampleTrace), Append(ADDED), SampleTrace);
  }
}
