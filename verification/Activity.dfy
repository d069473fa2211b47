/** Activities: each attempt journaled before it runs, its end journaled
    after its artifact is published, over crashes and restarts. */
module Activity {
  import opened Options
  import opened TraceLog
  import opened Journal
  import Store = ArtifactPublication

  /** What one activity call does next. */
  datatype Phase =
    | Idle
    | Starting(id: Id, attempt: nat)
    | Running(id: Id, attempt: nat)
    | Putting(id: Id, attempt: nat, artifact: Store.Address)
    | Ending(id: Id, attempt: nat, artifact: Store.Address)
    | Failing(id: Id, attempt: nat)

  /** The journal's records, the artifacts whose `put` finished,
      the runtime's two maps, and the IDs `fn` ran for, in order. */
  datatype Sys = Sys(records: seq<Record>, finished: set<Store.Address>, completed: map<Id, Store.Address>,
      attempts: map<Id, nat>, phase: Phase, runs: seq<Id>)

  datatype GetOutcome = Readable | Missing | Unreadable

  /** `Crash` ends the process, keeps a prefix of the journal's bytes and starts a new process on it. */
  datatype Event =
    | Call(id: Id, get: GetOutcome)
    | StartAppended(ok: bool)
    | FnSettled(result: Option<Store.Address>)
    | PutSettled(ok: bool)
    | EndAppended(ok: bool)
    | ErrorAppended(ok: bool)
    | Crash(kept: nat)

  datatype Env = Env(codec: Codec, nfc: Id -> Id)

  // ----- Projection

  /** The artifact of the last `end` of each ID. */
  function CompletedOf(records: seq<Record>): map<Id, Store.Address> {
    if records == [] then map[]
    else
      var front, last := CompletedOf(records[..|records| - 1]), records[|records| - 1];
      if last.End? then front[last.id := last.artifact] else front
  }

  function AttemptIn(attempts: map<Id, nat>, id: Id): nat { if id in attempts then attempts[id] else 0 }

  /** The highest attempt started of each ID. */
  function AttemptsOf(records: seq<Record>): map<Id, nat> {
    if records == [] then map[]
    else
      var front, last := AttemptsOf(records[..|records| - 1]), records[|records| - 1];
      if !last.AttemptStart? then front
      else
        front[last.id := if AttemptIn(front, last.id) < last.attempt then last.attempt else AttemptIn(front, last.id)]
  }

  /** `projectJournal`. */
  method ProjectJournal(records: seq<Record>) returns (completed: map<Id, Store.Address>, attempts: map<Id, nat>)
    ensures completed == CompletedOf(records) && attempts == AttemptsOf(records)
  {
    completed, attempts := map[], map[];
    for i := 0 to |records|
      invariant completed == CompletedOf(records[..i]) && attempts == AttemptsOf(records[..i])
    {
      var record := records[i];
      assert records[..i + 1][..i] == records[..i];
      match record {
        case AttemptStart(id, attempt) =>
          attempts := attempts[id := if AttemptIn(attempts, id) < attempt then attempt else AttemptIn(attempts, id)];
        case End(id, _, artifact) => completed := completed[id := artifact];
        case AttemptError(_, _) =>
      }
    }
    assert records[..|records|] == records;
  }

  // ----- Steps

  /** The record being appended. */
  function Pending(p: Phase): seq<Record> {
    match p
    case Starting(id, attempt) => [AttemptStart(id, attempt)]
    case Ending(id, attempt, artifact) => [End(id, attempt, artifact)]
    case Failing(id, attempt) => [AttemptError(id, attempt)]
    case _ => []
  }

  /** What a crash can leave of: the records written and the one being written. */
  function Written(s: Sys, nfc: Id -> Id): seq<Record> {
    s.records + if Pending(s.phase) == [] || !Valid(Pending(s.phase)[0]) then [] else [Stored(Pending(s.phase)[0], nfc)]
  }

  function Begin(s: Sys, id: Id): Sys {
    var attempt := AttemptIn(s.attempts, id) + 1;
    s.(completed := s.completed - {id}, attempts := s.attempts[id := attempt], phase := Starting(id, attempt))
  }

  function Restart(s: Sys, records: seq<Record>): Sys {
    s.(records := records, completed := CompletedOf(records), attempts := AttemptsOf(records), phase := Idle)
  }

  /** The step of an event; an event that is not enabled changes nothing. */
  function Step(s: Sys, e: Event, env: Env): Sys {
    match e
    case Call(id, get) =>
      if !s.phase.Idle? || (id in s.completed && get != Missing) then s else Begin(s, id)
    case StartAppended(ok) =>
      if !s.phase.Starting? then s
      else if !ok || !Valid(Pending(s.phase)[0]) then s.(phase := Idle)
      else s.(records := s.records + [Stored(Pending(s.phase)[0], env.nfc)],
              phase := Running(s.phase.id, s.phase.attempt), runs := s.runs + [s.phase.id])
    case FnSettled(result) =>
      if !s.phase.Running? then s
      else s.(phase := if result.Some? then Putting(s.phase.id, s.phase.attempt, result.value)
                       else Failing(s.phase.id, s.phase.attempt))
    case PutSettled(ok) =>
      if !s.phase.Putting? then s
      else if !ok then s.(phase := Failing(s.phase.id, s.phase.attempt))
      else s.(finished := s.finished + {s.phase.artifact},
              phase := Ending(s.phase.id, s.phase.attempt, s.phase.artifact))
    case EndAppended(ok) =>
      if !s.phase.Ending? then s
      else if !ok then s.(phase := Failing(s.phase.id, s.phase.attempt))
      else s.(records := s.records + [Stored(Pending(s.phase)[0], env.nfc)],
              completed := s.completed[s.phase.id := s.phase.artifact], phase := Idle)
    case ErrorAppended(ok) =>
      if !s.phase.Failing? then s
      else if !ok then s.(phase := Idle)
      else s.(records := s.records + [Stored(Pending(s.phase)[0], env.nfc)], phase := Idle)
    case Crash(kept) =>
      var written := Written(s, env.nfc);
      Restart(s, written[..Whole(written, env.codec, kept)])
  }

  function Run(s: Sys, events: seq<Event>, env: Env): Sys {
    if events == [] then s else Step(Run(s, events[..|events| - 1], env), events[|events| - 1], env)
  }

  const START := Sys([], {}, map[], map[], Idle, [])

  // ----- What the journal always is

  predicate Terminal(r: Record) { r.End? || r.AttemptError? }

  predicate Same(a: Record, b: Record) { a.id == b.id && a.attempt == b.attempt }

  /** Per ID the started attempts strictly increase. */
  ghost predicate StartsIncrease(records: seq<Record>) {
    forall i, j {:trigger records[i], records[j]} ::
      0 <= i < j < |records| && records[i].AttemptStart? && records[j].AttemptStart? && records[i].id == records[j].id
      ==> records[i].attempt < records[j].attempt
  }

  /** An attempt ends at most once. */
  ghost predicate EndsOnce(records: seq<Record>) {
    forall i, j :: 0 <= i < j < |records| && Terminal(records[i]) && Terminal(records[j]) ==>
        !Same(records[i], records[j])
  }

  ghost predicate Started(records: seq<Record>, id: Id, attempt: nat) { AttemptStart(id, attempt) in records }

  /** An attempt ends only after its start. */
  ghost predicate EndsAfterStart(records: seq<Record>) {
    forall j {:trigger records[j]} :: 0 <= j < |records| && Terminal(records[j]) ==>
      Started(records[..j], records[j].id, records[j].attempt)
  }

  /** Every `end` names an artifact whose `put` finished. */
  ghost predicate EndsPublished(records: seq<Record>, finished: set<Store.Address>) {
    forall j {:trigger records[j]} :: 0 <= j < |records| && records[j].End? ==> records[j].artifact in finished
  }

  /** What the runtime takes for completed, the journal says too: a restart would know it. */
  ghost predicate OnRecord(completed: map<Id, Store.Address>, records: seq<Record>) {
    forall id {:trigger id in completed} :: id in completed ==>
      id in CompletedOf(records) && CompletedOf(records)[id] == completed[id]
  }

  /** No attempt of the ID from `attempt` on was started. */
  ghost predicate Fresh(records: seq<Record>, id: Id, attempt: nat) {
    forall i {:trigger records[i]} :: 0 <= i < |records| && records[i].AttemptStart? && records[i].id == id ==>
      records[i].attempt < attempt
  }

  ghost predicate Unsettled(records: seq<Record>, id: Id, attempt: nat) {
    forall i {:trigger records[i]} :: 0 <= i < |records| && Terminal(records[i]) ==>
      !(records[i].id == id && records[i].attempt == attempt)
  }

  ghost predicate AttemptsCover(records: seq<Record>, attempts: map<Id, nat>) {
    forall id {:trigger AttemptIn(attempts, id)} :: Fresh(records, id, AttemptIn(attempts, id) + 1)
  }

  predicate InCall(p: Phase) { p.Running? || p.Putting? || p.Ending? || p.Failing? }

  /** Kept whatever the IDs: an attempt ends only after its start, an `end` only after its `put`. */
  ghost predicate Ordered(s: Sys, nfc: Id -> Id) {
    && EndsAfterStart(s.records) && EndsPublished(s.records, s.finished)
    && (s.phase.Starting? ==> s.phase.attempt >= 1)
    && (InCall(s.phase) ==>
          && s.phase.id != [] && 1 <= s.phase.attempt <= MAX_SAFE_INTEGER
          && Started(s.records, nfc(s.phase.id), s.phase.attempt))
    && (s.phase.Ending? ==> s.phase.artifact in s.finished)
  }

  /** Kept while calls name their activities in NFC: no attempt
      starts or ends twice, and what is completed is on record. */
  ghost predicate Once(s: Sys, nfc: Id -> Id) {
    && StartsIncrease(s.records) && EndsOnce(s.records)
    && AttemptsCover(s.records, s.attempts) && OnRecord(s.completed, s.records)
    && (!s.phase.Idle? && s.phase.id != [] ==> nfc(s.phase.id) == s.phase.id)
    && (s.phase.Starting? ==>
          AttemptIn(s.attempts, s.phase.id) == s.phase.attempt && Fresh(s.records, s.phase.id, s.phase.attempt))
    && (InCall(s.phase) ==> Unsettled(s.records, s.phase.id, s.phase.attempt))
  }

  /** Every ID that can be recorded at all is in NFC. */
  ghost predicate NormalIds(ids: iset<Id>, nfc: Id -> Id) {
    forall id {:trigger nfc(id)} :: id in ids && id != [] ==> nfc(id) == id
  }

  ghost predicate Inv(s: Sys, ids: iset<Id>, env: Env) {
    Ordered(s, env.nfc) && (NormalIds(ids, env.nfc) ==> Once(s, env.nfc))
  }

  // ----- Appending

  lemma AppendOrdered(records: seq<Record>, r: Record)
    requires EndsAfterStart(records) && (Terminal(r) ==> Started(records, r.id, r.attempt))
    ensures EndsAfterStart(records + [r]) && (r.AttemptStart? ==> Started(records + [r], r.id, r.attempt))
  {
    var after := records + [r];
    assert after[|records|] == r && after[..|records|] == records;
    assert forall j {:trigger after[j]} :: 0 <= j < |records| ==> after[j] == records[j] && after[..j] == records[..j];
  }

  lemma StartOnce(records: seq<Record>, id: Id, attempt: nat)
    requires StartsIncrease(records) && EndsOnce(records) && EndsAfterStart(records) && Fresh(records, id, attempt)
    ensures var after := records + [AttemptStart(id, attempt)];
            StartsIncrease(after) && EndsOnce(after) && Unsettled(after, id, attempt)
  {
    var after := records + [AttemptStart(id, attempt)];
    forall i | 0 <= i < |after| && Terminal(after[i]) ensures !(after[i].id == id && after[i].attempt == attempt) {
      assert after[i] == records[i] && Started(records[..i], records[i].id, records[i].attempt);
      var k :| 0 <= k < i && records[..i][k] == AttemptStart(records[i].id, records[i].attempt);
      assert records[k] == AttemptStart(records[i].id, records[i].attempt);
    }
  }

  lemma TerminalOnce(records: seq<Record>, r: Record)
    requires StartsIncrease(records) && EndsOnce(records) && Terminal(r) && Unsettled(records, r.id, r.attempt)
    ensures StartsIncrease(records + [r]) && EndsOnce(records + [r])
  {
  }

  lemma PrefixIsGood(records: seq<Record>, m: nat)
    requires m <= |records|
    ensures EndsAfterStart(records) ==> EndsAfterStart(records[..m])
    ensures StartsIncrease(records) && EndsOnce(records) ==> StartsIncrease(records[..m]) && EndsOnce(records[..m])
  {
    var prefix := records[..m];
    assert forall j {:trigger prefix[j]} :: 0 <= j < m ==> prefix[j] == records[j] && prefix[..j] == records[..j];
  }

  lemma {:induction false} ProjectionCovers(records: seq<Record>, id: Id)
    ensures Fresh(records, id, AttemptIn(AttemptsOf(records), id) + 1)
  {
    if records != [] {
      var front := records[..|records| - 1];
      ProjectionCovers(front, id);
      assert forall i :: 0 <= i < |front| ==> records[i] == front[i];
    }
  }

  /** The projected attempt of an ID is one on record, and its artifact that of its last `end`. */
  lemma {:induction false} ProjectionIsOnRecord(records: seq<Record>, id: Id)
    ensures id in AttemptsOf(records) <==>
            exists i :: 0 <= i < |records| && records[i].AttemptStart? && records[i].id == id
    ensures id in AttemptsOf(records) && AttemptsOf(records)[id] > 0 ==>
              exists i :: 0 <= i < |records| && records[i] == AttemptStart(id, AttemptsOf(records)[id])
    ensures id in CompletedOf(records) <==> exists i :: IsLastEnd(records, id, i)
    ensures forall i :: IsLastEnd(records, id, i) ==> CompletedOf(records)[id] == records[i].artifact
  {
    if records != [] {
      var n := |records| - 1;
      var front := records[..n];
      ProjectionIsOnRecord(front, id);
      assert forall i :: 0 <= i < n ==> front[i] == records[i];
      LastEndStep(records, id);
      if records[n].End? && records[n].id == id {
        assert IsLastEnd(records, id, n);
      } else if id in CompletedOf(front) {
        var i :| IsLastEnd(front, id, i);
        assert IsLastEnd(records, id, i);
      }
    }
  }

  predicate IsLastEnd(records: seq<Record>, id: Id, i: int) {
    && 0 <= i < |records| && records[i].End? && records[i].id == id
    && forall j :: i < j < |records| && records[j].End? ==> records[j].id != id
  }

  lemma LastEndStep(records: seq<Record>, id: Id)
    requires records != []
    ensures var n := |records| - 1;
            if records[n].End? && records[n].id == id then forall i :: IsLastEnd(records, id, i) <==> i == n
            else forall i :: IsLastEnd(records, id, i) <==> IsLastEnd(records[..n], id, i)
  {
    var n := |records| - 1;
    assert forall i :: 0 <= i < n ==> records[..n][i] == records[i];
  }

  lemma FreshLater(records: seq<Record>, r: Record, id: Id, attempt: nat)
    requires Fresh(records, id, attempt) && (r.AttemptStart? && r.id == id ==> r.attempt < attempt)
    ensures Fresh(records + [r], id, attempt)
  {
  }

  lemma CoverLater(records: seq<Record>, r: Record, attempts: map<Id, nat>)
    requires AttemptsCover(records, attempts) && (r.AttemptStart? ==> r.attempt <= AttemptIn(attempts, r.id))
    ensures AttemptsCover(records + [r], attempts)
  {
    hide Fresh;
    forall id ensures Fresh(records + [r], id, AttemptIn(attempts, id) + 1) {
      FreshLater(records, r, id, AttemptIn(attempts, id) + 1);
    }
  }

  lemma PublishedLater(records: seq<Record>, r: Record, finished: set<Store.Address>)
    requires EndsPublished(records, finished) && (r.End? ==> r.artifact in finished)
    ensures EndsPublished(records + [r], finished)
  {
  }

  lemma CompletedAppend(records: seq<Record>, r: Record)
    ensures CompletedOf(records + [r])
            == if r.End? then CompletedOf(records)[r.id := r.artifact] else CompletedOf(records)
  {
    assert (records + [r])[..|records|] == records;
  }

  // ----- Every step

  lemma BeginOnce(s: Sys, id: Id, env: Env)
    requires Once(s, env.nfc) && s.phase.Idle? && (id == [] || env.nfc(id) == id)
    ensures Once(Begin(s, id), env.nfc)
  {
    hide StartsIncrease, EndsOnce, Fresh, CompletedOf;
    var t := Begin(s, id);
    assert Fresh(s.records, id, AttemptIn(s.attempts, id) + 1);
    forall other ensures Fresh(t.records, other, AttemptIn(t.attempts, other) + 1) {
      assert Fresh(s.records, other, AttemptIn(s.attempts, other) + 1);
      FresherStill(s.records, other, AttemptIn(s.attempts, other) + 1, AttemptIn(t.attempts, other) + 1);
    }
  }

  lemma FresherStill(records: seq<Record>, id: Id, low: nat, high: nat)
    requires Fresh(records, id, low) && low <= high
    ensures Fresh(records, id, high)
  {
  }

  /** Appending what a phase appends. */
  lemma PendingOrdered(s: Sys, env: Env)
    requires Ordered(s, env.nfc) && Pending(s.phase) != [] && Valid(Pending(s.phase)[0])
    ensures var r := Stored(Pending(s.phase)[0], env.nfc);
            && EndsAfterStart(s.records + [r]) && EndsPublished(s.records + [r], s.finished)
            && (r.AttemptStart? ==> Started(s.records + [r], r.id, r.attempt))
  {
    hide EndsAfterStart, EndsPublished, Started;
    var r := Stored(Pending(s.phase)[0], env.nfc);
    AppendOrdered(s.records, r);
    PublishedLater(s.records, r, s.finished);
  }

  lemma PendingOnce(s: Sys, env: Env)
    requires Ordered(s, env.nfc) && Once(s, env.nfc) && Pending(s.phase) != [] && Valid(Pending(s.phase)[0])
    ensures var r := Pending(s.phase)[0];
            && Stored(r, env.nfc) == r && StartsIncrease(s.records + [r]) && EndsOnce(s.records + [r])
            && AttemptsCover(s.records + [r], s.attempts)
            && (r.AttemptStart? ==> Unsettled(s.records + [r], r.id, r.attempt))
            && OnRecord(if r.End? then s.completed[r.id := r.artifact] else s.completed, s.records + [r])
  {
    hide EndsAfterStart, EndsPublished, Started, StartsIncrease, EndsOnce, AttemptsCover, Unsettled, Fresh, CompletedOf;
    var r := Pending(s.phase)[0];
    if r.AttemptStart? {
      StartOnce(s.records, r.id, r.attempt);
    } else {
      TerminalOnce(s.records, r);
    }
    CoverLater(s.records, r, s.attempts);
    CompletedAppend(s.records, r);
  }

  lemma PublishedMore(records: seq<Record>, finished: set<Store.Address>, more: set<Store.Address>)
    requires EndsPublished(records, finished)
    ensures EndsPublished(records, finished + more)
  {
  }

  lemma StepOrdered(s: Sys, e: Event, env: Env)
    requires Ordered(s, env.nfc) && !e.Crash?
    ensures Ordered(Step(s, e, env), env.nfc)
  {
    hide EndsAfterStart, EndsPublished, Started;
    if Pending(s.phase) != [] && Valid(Pending(s.phase)[0]) {
      PendingOrdered(s, env);
    }
    if s.phase.Putting? {
      PublishedMore(s.records, s.finished, {s.phase.artifact});
    }
  }

  lemma StepOnce(s: Sys, e: Event, env: Env)
    requires Ordered(s, env.nfc) && Once(s, env.nfc) && !e.Crash?
    requires e.Call? ==> e.id == [] || env.nfc(e.id) == e.id
    ensures Once(Step(s, e, env), env.nfc)
  {
    hide EndsAfterStart, EndsPublished, Started, StartsIncrease, EndsOnce, AttemptsCover, Unsettled, Fresh, OnRecord,
        Begin;
    if e.Call? {
      if s.phase.Idle? { BeginOnce(s, e.id, env); }
    } else if Pending(s.phase) != [] && Valid(Pending(s.phase)[0]) {
      PendingOnce(s, env);
    }
  }

  /** The records written and the one being written are as good. */
  lemma WrittenFits(s: Sys, env: Env)
    requires Ordered(s, env.nfc)
    ensures EndsAfterStart(Written(s, env.nfc)) && EndsPublished(Written(s, env.nfc), s.finished)
    ensures Once(s, env.nfc) ==> StartsIncrease(Written(s, env.nfc)) && EndsOnce(Written(s, env.nfc))
  {
    hide EndsAfterStart, EndsPublished, Started, StartsIncrease, EndsOnce, AttemptsCover, Unsettled, Fresh, OnRecord;
    if Pending(s.phase) != [] && Valid(Pending(s.phase)[0]) {
      PendingOrdered(s, env);
      if Once(s, env.nfc) { PendingOnce(s, env); }
    } else {
      assert s.records + [] == s.records;
    }
  }

  lemma RestartFits(s: Sys, records: seq<Record>, m: nat, env: Env)
    requires EndsAfterStart(records) && EndsPublished(records, s.finished) && m <= |records|
    ensures Ordered(Restart(s, records[..m]), env.nfc)
    ensures StartsIncrease(records) && EndsOnce(records) ==> Once(Restart(s, records[..m]), env.nfc)
  {
    hide EndsAfterStart, StartsIncrease, EndsOnce, Fresh, CompletedOf, AttemptsOf;
    PrefixIsGood(records, m);
    forall id ensures Fresh(records[..m], id, AttemptIn(AttemptsOf(records[..m]), id) + 1) {
      ProjectionCovers(records[..m], id);
    }
    assert forall j :: 0 <= j < m ==> records[..m][j] == records[j];
  }

  /** One step, of calls by any IDs: what is kept for all of them, and what is kept while they are in NFC. */
  lemma StepKeeps(s: Sys, e: Event, ids: iset<Id>, env: Env)
    requires Inv(s, ids, env) && (e.Call? ==> e.id in ids)
    ensures Inv(Step(s, e, env), ids, env)
  {
    hide Ordered, Once, Begin, Restart, Written, EndsAfterStart, EndsPublished, StartsIncrease, EndsOnce;
    if e.Crash? {
      WrittenFits(s, env);
      RestartFits(s, Written(s, env.nfc), Whole(Written(s, env.nfc), env.codec, e.kept), env);
    } else {
      StepOrdered(s, e, env);
      if NormalIds(ids, env.nfc) { StepOnce(s, e, env); }
    }
  }

  ghost predicate CallsOnly(events: seq<Event>, ids: iset<Id>) {
    forall i {:trigger events[i]} :: 0 <= i < |events| && events[i].Call? ==> events[i].id in ids
  }

  ghost function Called(events: seq<Event>): (ids: iset<Id>)
    ensures CallsOnly(events, ids)
  {
    iset i | 0 <= i < |events| && events[i].Call? :: events[i].id
  }

  lemma StartFits(ids: iset<Id>, env: Env)
    ensures Inv(START, ids, env)
  {
  }

  lemma {:induction false} RunKeeps(events: seq<Event>, ids: iset<Id>, env: Env)
    requires CallsOnly(events, ids)
    ensures Inv(Run(START, events, env), ids, env)
  {
    hide Inv, Step;
    if events == [] {
      StartFits(ids, env);
    } else {
      RunKeeps(events[..|events| - 1], ids, env);
      StepKeeps(Run(START, events[..|events| - 1], env), events[|events| - 1], ids, env);
    }
  }

  // ----- Over whole runs

  lemma RunPrefix(s: Sys, events: seq<Event>, k: nat, env: Env)
    requires k < |events|
    ensures Run(s, events[..k + 1], env) == Step(Run(s, events[..k], env), events[k], env)
  {
    assert events[..k + 1][..k] == events[..k];
  }

  // One lemma for each kind of event, so that a run of several is followed step by step.

  lemma CallBegins(s: Sys, id: Id, get: GetOutcome, env: Env)
    requires s.phase.Idle? && id !in s.completed
    ensures Step(s, Call(id, get), env) == Begin(s, id)
  {
  }

  lemma StartRuns(s: Sys, env: Env)
    requires s.phase.Starting? && Valid(Pending(s.phase)[0])
    ensures Step(s, StartAppended(true), env) ==
            s.(records := s.records + [Stored(Pending(s.phase)[0], env.nfc)],
               phase := Running(s.phase.id, s.phase.attempt), runs := s.runs + [s.phase.id])
  {
  }

  lemma FnSettles(s: Sys, result: Option<Store.Address>, env: Env)
    requires s.phase.Running?
    ensures Step(s, FnSettled(result), env) ==
            s.(phase := if result.Some? then Putting(s.phase.id, s.phase.attempt, result.value)
                        else Failing(s.phase.id, s.phase.attempt))
  {
  }

  lemma PutSettles(s: Sys, ok: bool, env: Env)
    ensures Step(s, PutSettled(ok), env) ==
            if !s.phase.Putting? then s
            else if !ok then s.(phase := Failing(s.phase.id, s.phase.attempt))
            else s.(finished := s.finished + {s.phase.artifact},
                    phase := Ending(s.phase.id, s.phase.attempt, s.phase.artifact))
  {
  }

  lemma EndSettles(s: Sys, ok: bool, env: Env)
    ensures Step(s, EndAppended(ok), env) ==
            if !s.phase.Ending? then s
            else if !ok then s.(phase := Failing(s.phase.id, s.phase.attempt))
            else s.(records := s.records + [Stored(Pending(s.phase)[0], env.nfc)],
                    completed := s.completed[s.phase.id := s.phase.artifact], phase := Idle)
  {
  }

  lemma ErrorSettles(s: Sys, ok: bool, env: Env)
    ensures Step(s, ErrorAppended(ok), env) ==
            if !s.phase.Failing? then s
            else if !ok then s.(phase := Idle)
            else s.(records := s.records + [Stored(Pending(s.phase)[0], env.nfc)], phase := Idle)
  {
  }

  /** Calling, starting, failing and recording the failure. */
  function FailedAttempt(id: Id): seq<Event> {
    [Call(id, Readable), StartAppended(true), FnSettled(None), ErrorAppended(true)]
  }

  function Succeeded(id: Id, artifact: Store.Address): seq<Event> {
    [Call(id, Readable), StartAppended(true), FnSettled(Some(artifact)), PutSettled(true), EndAppended(true)]
  }

  /** A failed attempt, a crash that loses nothing, and another failed attempt. */
  function FailedTwice(id: Id, env: Env): seq<Event> {
    FailedAttempt(id) + [Crash(|Encode(Run(START, FailedAttempt(id), env).records, env.codec)|)] + FailedAttempt(id)
  }

  lemma {:induction false} RunConcat(s: Sys, first: seq<Event>, second: seq<Event>, env: Env)
    ensures Run(s, first + second, env) == Run(Run(s, first, env), second, env)
  {
    hide Step;
    if second == [] {
      assert first + second == first;
    } else {
      var n := |second| - 1;
      RunConcat(s, first, second[..n], env);
      assert (first + second)[..|first| + n] == first + second[..n];
    }
  }

  lemma RunOne(s: Sys, e: Event, env: Env)
    ensures Run(s, [e], env) == Step(s, e, env)
  {
    assert [e][..0] == [];
  }

  lemma RunFour(s: Sys, events: seq<Event>, env: Env)
    requires |events| == 4
    ensures Run(s, events, env)
            == Step(Step(Step(Step(s, events[0], env), events[1], env), events[2], env), events[3], env)
  {
    hide Run, Step;
    assert events[..0] == [] && events[..4] == events;
    RunEmpty(s, env);
    RunPrefix(s, events, 0, env);
    RunPrefix(s, events, 1, env);
    RunPrefix(s, events, 2, env);
    RunPrefix(s, events, 3, env);
  }

  lemma RunEmpty(s: Sys, env: Env)
    ensures Run(s, [], env) == s
  {
  }

  lemma FailedAttemptRuns(s: Sys, id: Id, env: Env)
    requires s.phase.Idle? && id !in s.completed && id != [] && AttemptIn(s.attempts, id) < MAX_SAFE_INTEGER
    ensures var t, attempt := Run(s, FailedAttempt(id), env), AttemptIn(s.attempts, id) + 1;
            && t.records == s.records + [AttemptStart(env.nfc(id), attempt), AttemptError(env.nfc(id), attempt)]
            && t.phase.Idle?
  {
    hide Run, Step;
    var events := FailedAttempt(id);
    RunFour(s, events, env);
    var called := Step(s, events[0], env);
    CallBegins(s, id, Readable, env);
    var running := Step(called, events[1], env);
    StartRuns(called, env);
    var failing := Step(running, events[2], env);
    FnSettles(running, None, env);
    ErrorSettles(failing, true, env);
  }

  lemma SucceededRuns(id: Id, artifact: Store.Address, env: Env)
    requires id != []
    ensures var t := Run(START, Succeeded(id, artifact), env);
            && t.records == [AttemptStart(env.nfc(id), 1), End(env.nfc(id), 1, artifact)]
            && t.completed == map[id := artifact] && t.phase.Idle?
  {
    hide Run, Step;
    var events := Succeeded(id, artifact);
    RunFour(START, events[..4], env);
    RunPrefix(START, events, 4, env);
    assert events[..5] == events;
    var called := Step(START, events[0], env);
    CallBegins(START, id, Readable, env);
    var running := Step(called, events[1], env);
    StartRuns(called, env);
    var putting := Step(running, events[2], env);
    FnSettles(running, Some(artifact), env);
    var published := Step(putting, events[3], env);
    PutSettles(putting, true, env);
    EndSettles(published, true, env);
  }

  /** The `put` of such an attempt is of what `fn` gave. */
  lemma PutsWhatFnGave(id: Id, artifact: Store.Address, env: Env)
    requires id != []
    ensures Run(START, Succeeded(id, artifact)[..3], env).phase == Putting(id, 1, artifact)
  {
    hide Run, Step;
    var events := Succeeded(id, artifact);
    RunEmpty(START, env);
    assert events[..0] == [];
    RunPrefix(START, events, 0, env);
    RunPrefix(START, events, 1, env);
    RunPrefix(START, events, 2, env);
    CallBegins(START, id, Readable, env);
    var running := Step(Step(START, events[0], env), events[1], env);
    StartRuns(Step(START, events[0], env), env);
    FnSettles(running, Some(artifact), env);
  }

  /** A crash that keeps every byte loses nothing. */
  lemma CrashKeepsAll(s: Sys, kept: nat, env: Env)
    requires s.phase.Idle? && |Encode(s.records, env.codec)| <= kept
    ensures Step(s, Crash(kept), env) == Restart(s, s.records)
  {
    hide Encode, Restart;
    assert Written(s, env.nfc) == s.records && s.records[..|s.records|] == s.records;
  }

  lemma {:induction false} NotNamed(records: seq<Record>, id: Id)
    requires forall i {:trigger records[i]} :: 0 <= i < |records| ==> records[i].id != id
    ensures id !in CompletedOf(records) && id !in AttemptsOf(records)
  {
    if records != [] {
      NotNamed(records[..|records| - 1], id);
    }
  }

  /**
   * An ID that is not in NFC: the journal stores it in NFC, so the process after a crash finds
   * nothing under the caller's ID, starts attempt 1 again under the stored one and ends it again.
   */
  lemma FailedTwiceRepeats(id: Id, env: Env)
    requires id != [] && env.nfc(id) != id
    ensures var n := env.nfc(id);
            Run(START, FailedTwice(id, env), env).records ==
            [AttemptStart(n, 1), AttemptError(n, 1), AttemptStart(n, 1), AttemptError(n, 1)]
  {
    hide Run, Step, Encode;
    var once, n := FailedAttempt(id), env.nfc(id);
    var failed := Run(START, once, env);
    var crash := Crash(|Encode(failed.records, env.codec)|);
    FailedAttemptRuns(START, id, env);
    assert failed.records == [AttemptStart(n, 1), AttemptError(n, 1)];
    RunConcat(START, once + [crash], once, env);
    RunConcat(START, once, [crash], env);
    RunOne(failed, crash, env);
    CrashKeepsAll(failed, crash.kept, env);
    NotNamed(failed.records, id);
    FailedAttemptRuns(Restart(failed, failed.records), id, env);
  }

  /** The runs of such an ID break each of the three, and the
      first `end` leaves the runtime's map ahead of the journal's. */
  lemma NotNormalBreaks(ids: iset<Id>, id: Id, artifact: Store.Address, env: Env)
    requires id in ids && id != [] && env.nfc(id) != id
    ensures var t := Run(START, FailedTwice(id, env), env);
            CallsOnly(FailedTwice(id, env), ids) && !StartsIncrease(t.records) && !EndsOnce(t.records)
    ensures var t := Run(START, Succeeded(id, artifact), env);
            CallsOnly(Succeeded(id, artifact), ids) && !OnRecord(t.completed, t.records)
  {
    hide Run, Encode;
    var t := Run(START, FailedTwice(id, env), env);
    FailedTwiceRepeats(id, env);
    assert t.records[0].AttemptStart? && t.records[2].AttemptStart? && Terminal(t.records[1]) && Terminal(t.records[3]);
    assert Same(t.records[1], t.records[3]);
    SucceededRuns(id, artifact, env);
    var u := Run(START, Succeeded(id, artifact), env);
    NotNamed(u.records, id);
    assert id in u.completed;
  }

  /**
   * Over any sequence of activity calls, failed appends, crashes that keep any prefix of the
   * bytes, and restarts. For calls by any IDs an attempt ends only after its start and every `end`
   * follows a finished `put`. That started attempts strictly increase per ID, that an attempt ends
   * at most once, and that a completed activity is known after a restart: each of the three holds
   * over all runs exactly when every ID called is in NFC or empty, an empty one being refused.
   */
  lemma JournalSurvives(ids: iset<Id>, env: Env)
    ensures forall events {:trigger Run(START, events, env)} ::
              EndsAfterStart(Run(START, events, env).records)
              && EndsPublished(Run(START, events, env).records, Run(START, events, env).finished)
    ensures NormalIds(ids, env.nfc) <==> forall events {:trigger Run(START, events, env)} ::
              CallsOnly(events, ids) ==> StartsIncrease(Run(START, events, env).records)
    ensures NormalIds(ids, env.nfc) <==> forall events {:trigger Run(START, events, env)} ::
              CallsOnly(events, ids) ==> EndsOnce(Run(START, events, env).records)
    ensures NormalIds(ids, env.nfc) <==> forall events {:trigger Run(START, events, env)} ::
              CallsOnly(events, ids) ==> OnRecord(Run(START, events, env).completed, Run(START, events, env).records)
  {
    hide Run, StartsIncrease, EndsOnce, EndsAfterStart, EndsPublished, OnRecord;
    forall events ensures Ordered(Run(START, events, env), env.nfc) {
      RunKeeps(events, Called(events), env);
    }
    forall events | NormalIds(ids, env.nfc) && CallsOnly(events, ids) ensures Once(Run(START, events, env), env.nfc) {
      RunKeeps(events, ids, env);
    }
    if !NormalIds(ids, env.nfc) {
      var id :| id in ids && id != [] && env.nfc(id) != id;
      NotNormalBreaks(ids, id, Store.AddressOf([], ""), env);
    }
  }

  // ----- The bytes

  /** Every record written is one the journal accepts, with its ID in NFC. */
  lemma {:induction false} RecordsAreNormal(events: seq<Event>, env: Env)
    requires Normalises(env.nfc)
    ensures AllNormal(Run(START, events, env).records, env.nfc)
  {
    hide Step, Ordered;
    if events != [] {
      var front := events[..|events| - 1];
      RecordsAreNormal(front, env);
      RunKeeps(front, Called(front), env);
      StepNormal(Run(START, front, env), events[|events| - 1], env);
    }
  }

  lemma NormalLater(records: seq<Record>, r: Record, nfc: Id -> Id)
    requires AllNormal(records, nfc) && Valid(r) && Normalises(nfc)
    ensures AllNormal(records + [Stored(r, nfc)], nfc)
  {
  }

  lemma WrittenNormal(s: Sys, env: Env)
    requires AllNormal(s.records, env.nfc) && Normalises(env.nfc)
    ensures AllNormal(Written(s, env.nfc), env.nfc)
  {
    hide AllNormal;
    if Pending(s.phase) != [] && Valid(Pending(s.phase)[0]) {
      NormalLater(s.records, Pending(s.phase)[0], env.nfc);
    } else {
      assert s.records + [] == s.records;
    }
  }

  lemma StepNormal(s: Sys, e: Event, env: Env)
    requires AllNormal(s.records, env.nfc) && Normalises(env.nfc) && Ordered(s, env.nfc)
    ensures AllNormal(Step(s, e, env).records, env.nfc)
  {
    hide AllNormal, EndsAfterStart, EndsPublished, Started, Written, Whole;
    if e.Crash? {
      WrittenNormal(s, env);
      NormalPrefix(Written(s, env.nfc), Whole(Written(s, env.nfc), env.codec, e.kept), env.nfc);
    } else if Pending(s.phase) != [] && Valid(Pending(s.phase)[0]) {
      NormalLater(s.records, Pending(s.phase)[0], env.nfc);
    }
  }

  lemma NormalPrefix(records: seq<Record>, m: nat, nfc: Id -> Id)
    requires AllNormal(records, nfc) && m <= |records|
    ensures AllNormal(records[..m], nfc)
  {
  }

  /** After a crash, loading the bytes it left yields exactly the records the new process starts from: in every run. */
  lemma RestartLoadsWhatIsLeft(events: seq<Event>, kept: nat, env: Env)
    requires Sound(env.codec, env.nfc)
    ensures var s := Run(START, events, env);
            Loaded(Kept(Encode(Written(s, env.nfc), env.codec), kept), env.codec)
                == Some(Step(s, Crash(kept), env).records)
  {
    hide Encode, Loaded, Kept, Written, Whole, AllNormal, Run;
    var s := Run(START, events, env);
    RecordsAreNormal(events, env);
    WrittenNormal(s, env);
    CrashKeepsWholeRecords(Written(s, env.nfc), kept, env.codec, env.nfc);
  }

  // ----- A completed activity is not run again

  function RunsOf(runs: seq<Id>, id: Id): nat {
    if runs == [] then 0 else RunsOf(runs[..|runs| - 1], id) + if runs[|runs| - 1] == id then 1 else 0
  }

  /** The ID ended at record `k`, the runtime knows it, and no call of it is under way. */
  ghost predicate Settled(s: Sys, id: Id, k: nat) {
    && k < |s.records| && s.records[k].End? && s.records[k].id == id
    && id in s.completed
    && (s.phase.Idle? || s.phase.id != id)
  }

  /** The artifact stays there to be read, and no crash loses the bytes of record `k`. */
  ghost predicate Spares(s: Sys, e: Event, id: Id, k: nat, env: Env) {
    && (e.Call? && e.id == id ==> e.get != Missing)
    && (e.Crash? ==> k < |Written(s, env.nfc)| && |Encode(Written(s, env.nfc)[..k + 1], env.codec)| <= e.kept)
  }

  lemma {:induction false} EndedIsCompleted(records: seq<Record>, k: nat)
    requires k < |records| && records[k].End?
    ensures records[k].id in CompletedOf(records)
  {
    if k < |records| - 1 {
      EndedIsCompleted(records[..|records| - 1], k);
    }
  }

  lemma RunsAppend(runs: seq<Id>, last: Id, id: Id)
    ensures RunsOf(runs + [last], id) == RunsOf(runs, id) + if last == id then 1 else 0
  {
    assert (runs + [last])[..|runs|] == runs;
  }

  lemma RestartStaysSettled(s: Sys, kept: nat, id: Id, k: nat, env: Env)
    requires Settled(s, id, k) && Spares(s, Crash(kept), id, k, env)
    ensures Settled(Step(s, Crash(kept), env), id, k)
  {
    hide Whole, Encode;
    var written := Written(s, env.nfc);
    var m := Whole(written, env.codec, kept);
    WholeAtLeast(written, env.codec, kept, k + 1);
    assert written[..m][k] == written[k] == s.records[k];
    EndedIsCompleted(written[..m], k);
  }

  lemma StepStaysSettled(s: Sys, e: Event, id: Id, k: nat, env: Env)
    requires Settled(s, id, k) && Spares(s, e, id, k, env)
    ensures Settled(Step(s, e, env), id, k) && RunsOf(Step(s, e, env).runs, id) == RunsOf(s.runs, id)
  {
    hide Whole, Encode, Written, RunsOf;
    if e.Crash? {
      RestartStaysSettled(s, e.kept, id, k, env);
    } else if e.StartAppended? && s.phase.Starting? {
      RunsAppend(s.runs, s.phase.id, id);
    }
  }

  ghost predicate AllSpare(s: Sys, events: seq<Event>, id: Id, k: nat, env: Env) {
    forall i {:trigger events[i]} :: 0 <= i < |events| ==> Spares(Run(s, events[..i], env), events[i], id, k, env)
  }

  lemma AllSparePrefix(s: Sys, events: seq<Event>, id: Id, k: nat, env: Env)
    requires AllSpare(s, events, id, k, env) && events != []
    ensures AllSpare(s, events[..|events| - 1], id, k, env)
    ensures Spares(Run(s, events[..|events| - 1], env), events[|events| - 1], id, k, env)
  {
    hide Spares, Run;
    var front := events[..|events| - 1];
    forall i {:trigger front[i]} | 0 <= i < |front| ensures Spares(Run(s, front[..i], env), front[i], id, k, env) {
      assert front[..i] == events[..i] && front[i] == events[i];
    }
  }

  /** Once its end is on record, and while its artifact can be
      found, `fn` never runs again: across any crashes and restarts. */
  lemma {:induction false} NeverRunsAgain(s: Sys, events: seq<Event>, id: Id, k: nat, env: Env)
    requires Settled(s, id, k) && AllSpare(s, events, id, k, env)
    ensures Settled(Run(s, events, env), id, k) && RunsOf(Run(s, events, env).runs, id) == RunsOf(s.runs, id)
  {
    hide Settled, Spares, AllSpare, Step, RunsOf;
    if events != [] {
      var front := events[..|events| - 1];
      AllSparePrefix(s, events, id, k, env);
      NeverRunsAgain(s, front, id, k, env);
      StepStaysSettled(Run(s, front, env), events[|events| - 1], id, k, env);
    }
  }

  /** Ending an activity settles it exactly when its ID is in NFC; otherwise its end stands under another ID. */
  lemma EndingSettles(s: Sys, env: Env)
    requires s.phase.Ending?
    ensures Settled(Step(s, EndAppended(true), env), s.phase.id, |s.records|) <==> env.nfc(s.phase.id) == s.phase.id
  {
  }

  // ----- The runtime

  /** How the parts of one call come out, where the call gets to them. */
  datatype Faults = Faults(startOk: bool, putOk: bool, endOk: bool, errorOk: bool)

  datatype CallOutcome = Restored | Result(artifact: Store.Address) | Threw

  /** The steps of one uninterrupted call; those it does not get to change nothing. */
  function CallSteps(s: Sys, id: Id, get: GetOutcome, result: Option<Store.Address>, faults: Faults, env: Env): Sys {
    FinishSteps(Step(Step(s, Call(id, get), env), StartAppended(faults.startOk), env), result, faults, env)
  }

  function FinishSteps(s: Sys, result: Option<Store.Address>, faults: Faults, env: Env): Sys {
    var published := Step(Step(s, FnSettled(result), env), PutSettled(faults.putOk), env);
    Step(Step(published, EndAppended(faults.endOk), env), ErrorAppended(faults.errorOk), env)
  }

  lemma NothingToFinish(s: Sys, result: Option<Store.Address>, faults: Faults, env: Env)
    requires s.phase.Idle?
    ensures FinishSteps(s, result, faults, env) == s
  {
  }

  /** The steps of a call after `fn`, by how each of its parts comes out. */
  lemma FinishIs(s: Sys, result: Option<Store.Address>, faults: Faults, env: Env)
    requires s.phase.Running?
    ensures FinishSteps(s, result, faults, env) ==
            var (id, attempt) := (s.phase.id, s.phase.attempt);
            var error := if faults.errorOk then [Stored(AttemptError(id, attempt), env.nfc)] else [];
            if result.None? || !faults.putOk then s.(records := s.records + error, phase := Idle)
            else
              var finished := s.finished + {result.value};
              if !faults.endOk then s.(records := s.records + error, finished := finished, phase := Idle)
              else s.(records := s.records + [Stored(End(id, attempt, result.value), env.nfc)], finished := finished,
                      completed := s.completed[id := result.value], phase := Idle)
  {
    hide Step;
    FnSettles(s, result, env);
    var put := Step(s, FnSettled(result), env);
    PutSettles(put, faults.putOk, env);
    var published := Step(put, PutSettled(faults.putOk), env);
    EndSettles(published, faults.endOk, env);
    ErrorSettles(Step(published, EndAppended(faults.endOk), env), faults.errorOk, env);
    assert s.records + [] == s.records;
  }

  lemma CallStepsAre(s: Sys, id: Id, get: GetOutcome, result: Option<Store.Address>, faults: Faults, env: Env)
    requires s.phase.Idle?
    ensures CallSteps(s, id, get, result, faults, env)
            == if id in s.completed && get != Missing then FinishSteps(s, result, faults, env)
               else FinishSteps(Step(Begin(s, id), StartAppended(faults.startOk), env), result, faults, env)
  {
    hide FinishSteps, Begin;
  }

  /** Whether the call goes past the stored result, which only a missing artifact makes it do. */
  predicate Begins(s: Sys, id: Id, get: GetOutcome) { id !in s.completed || get == Missing }

  /** Whether it comes to run `fn`: its attempt is numbered and on record. */
  predicate RunsFn(s: Sys, id: Id, get: GetOutcome, faults: Faults) {
    Begins(s, id, get) && faults.startOk && id != [] && AttemptIn(s.attempts, id) < MAX_SAFE_INTEGER
  }

  /**
   * What one uninterrupted call leaves: it runs `fn` once if its start can be recorded, under the next attempt number;
   * it is completed exactly when the result, its artifact and its end all came to be, and records an error otherwise.
   */
  lemma CallIs(s: Sys, id: Id, get: GetOutcome, result: Option<Store.Address>, faults: Faults, env: Env)
    requires s.phase.Idle?
    ensures var after := CallSteps(s, id, get, result, faults, env);
            var attempt := AttemptIn(s.attempts, id) + 1;
            var runs := RunsFn(s, id, get, faults);
            var ends := runs && result.Some? && faults.putOk && faults.endOk;
            && after.phase.Idle? && after.runs == s.runs + (if runs then [id] else [])
            && after.records
               == s.records + (if runs then [Stored(AttemptStart(id, attempt), env.nfc)] else [])
                  + (if ends then [Stored(End(id, attempt, result.value), env.nfc)]
                     else if runs && faults.errorOk then [Stored(AttemptError(id, attempt), env.nfc)] else [])
            && after.finished == s.finished + (if runs && result.Some? && faults.putOk then {result.value} else {})
            && after.attempts == (if Begins(s, id, get) then s.attempts[id := attempt] else s.attempts)
            && after.completed == (if ends then s.completed[id := result.value]
                                   else if Begins(s, id, get) then s.completed - {id} else s.completed)
  {
    hide FinishSteps;
    var begun := Step(Step(s, Call(id, get), env), StartAppended(faults.startOk), env);
    assert begun.phase.Running? <==> RunsFn(s, id, get, faults);
    if begun.phase.Running? {
      FinishIs(begun, result, faults, env);
      assert (s.completed - {id})[id := result.GetOr(Store.AddressOf([], ""))]
             == s.completed[id := result.GetOr(Store.AddressOf([], ""))];
    } else {
      NothingToFinish(begun, result, faults, env);
    }
    assert s.records + [] == s.records && s.runs + [] == s.runs;
  }

  class ActivityRuntime {
    const env: Env
    var records: seq<Record>
    var finished: set<Store.Address>
    var completed: map<Id, Store.Address>
    var attempts: map<Id, nat>
    var runs: seq<Id>

    /** A process started on a journal whose records were loaded. */
    constructor (records: seq<Record>, finished: set<Store.Address>, runs: seq<Id>, env: Env)
      ensures State() == Restart(Sys(records, finished, map[], map[], Idle, runs), records) && this.env == env
    {
      this.records, this.finished, this.runs, this.env := records, finished, runs, env;
      completed, attempts := map[], map[];
      new;
      completed, attempts := ProjectJournal(records);
    }

    function State(): Sys
      reads this
    {
      Sys(records, finished, completed, attempts, Idle, runs)
    }

    /** `append`: one record of the journal, or none. */
    method Append(r: Record, ok: bool) returns (appended: bool)
      modifies this`records
      ensures appended == (ok && Valid(r))
      ensures records == if appended then old(records) + [Stored(r, env.nfc)] else old(records)
    {
      appended := ok && Valid(r);
      if appended {
        records := records + [Stored(r, env.nfc)];
      }
    }

    function During(phase: Phase): Sys
      reads this
    {
      Sys(records, finished, completed, attempts, phase, runs)
    }

    /** The part of a call up to and including the start of `fn`. */
    method StartAttempt(id: Id, ok: bool) returns (attempt: nat, started: bool)
      modifies this
      ensures During(if started then Running(id, attempt) else Idle)
              == Step(Begin(old(State()), id), StartAppended(ok), env)
      ensures attempt == AttemptIn(old(attempts), id) + 1
      ensures started <==> ok && id != [] && attempt <= MAX_SAFE_INTEGER
      ensures runs == old(runs) + if started then [id] else []
    {
      completed := completed - {id};
      attempt := AttemptIn(attempts, id) + 1;
      attempts := attempts[id := attempt];
      started := Append(AttemptStart(id, attempt), ok);
      if started {
        runs := runs + [id];
      }
    }

    /** The part of a call after `fn`: publish the result, then record the end; anything that fails records an error. */
    method FinishAttempt(id: Id, attempt: nat, result: Option<Store.Address>, faults: Faults)
      returns (outcome: CallOutcome)
      requires id != [] && 1 <= attempt <= MAX_SAFE_INTEGER
      modifies this
      ensures State() == FinishSteps(old(During(Running(id, attempt))), result, faults, env)
      ensures outcome == if result.Some? && faults.putOk && faults.endOk then Result(result.value) else Threw
      ensures outcome.Result? ==> id in completed && completed[id] == outcome.artifact && outcome.artifact in finished
      ensures runs == old(runs)
    {
      hide Step;
      ghost var running := During(Running(id, attempt));
      FinishIs(running, result, faults, env);
      if result.Some? && faults.putOk {
        finished := finished + {result.value};
        var ended := Append(End(id, attempt, result.value), faults.endOk);
        if ended {
          completed := completed[id := result.value];
          return Result(result.value);
        }
      }
      var failed := Append(AttemptError(id, attempt), faults.errorOk);
      outcome := Threw;
    }

    /** `activity`: `result` is what `fn` would come to, if it runs. */
    method Activity(id: Id, get: GetOutcome, result: Option<Store.Address>, faults: Faults)
      returns (outcome: CallOutcome)
      modifies this
      ensures State() == CallSteps(old(State()), id, get, result, faults, env)
      ensures outcome == Restored <==> id in old(completed) && get == Readable
      ensures outcome == Restored ==> State() == old(State())
      ensures outcome.Result? <==>
              RunsFn(old(State()), id, get, faults) && result.Some? && faults.putOk && faults.endOk
      ensures outcome.Result? ==>
              Some(outcome.artifact) == result && id in completed && completed[id] == outcome.artifact
              && outcome.artifact in finished
      ensures runs == old(runs) + if RunsFn(old(State()), id, get, faults) then [id] else []
    {
      hide FinishSteps, Begin, CallSteps;
      CallIs(State(), id, get, result, faults, env);
      CallStepsAre(State(), id, get, result, faults, env);
      if id in completed && get != Missing {
        NothingToFinish(State(), result, faults, env);
        return if get == Readable then Restored else Threw;
      }
      var attempt, started := StartAttempt(id, faults.startOk);
      if !started {
        NothingToFinish(State(), result, faults, env);
        return Threw;
      }
      outcome := FinishAttempt(id, attempt, result, faults);
    }
  }
}
