/** Activities over the artifact store: what the journal says is done can be read, while writers and processes crash. */
module CompletedArtifacts {
  import Activity
  import opened Options
  import opened Journal
  import Store = ArtifactPublication

  /** One process's activities and the store that they, and any other writers, publish in. */
  datatype Sys = Sys(activities: Activity.Sys, store: Store.Sys)

  /** A step of the activities, whose `put` is the one of a writer of the store; or a step of the store. */
  datatype Event = InJournal(step: Activity.Event, writer: nat) | InStore(call: Store.Event)

  /** The `put` of an artifact returned: it is that of a writer, and that writer is done. */
  predicate Returned(store: Store.Sys, writer: nat, artifact: Store.Address) {
    writer in store.writers && store.writers[writer].stage.Returned? && store.writers[writer].name.target == artifact
  }

  /** What `get` comes to for an artifact of the store. */
  function GetOf(store: Store.Sys, a: Store.Address): Activity.GetOutcome {
    if a !in store.finals then Activity.Missing
    else if Store.Get(store, a, |a.hash.content|).Some? then Activity.Readable
    else Activity.Unreadable
  }

  /** An artifact is missing when no file is there, and readable when the file holds what its address names. */
  lemma GetOfIs(store: Store.Sys, a: Store.Address)
    ensures GetOf(store, a) == Activity.Missing <==> a !in store.finals
    ensures GetOf(store, a) == Activity.Readable <==> Store.Intact(store, a)
  {
  }

  /** Whether the step can happen now: a `put` succeeds only when its writer has
      returned, and a call of a completed activity finds what the store holds. */
  predicate Enabled(s: Sys, e: Activity.Event, writer: nat) {
    && (e.PutSettled? && e.ok && s.activities.phase.Putting? ==> Returned(s.store, writer, s.activities.phase.artifact))
    && (e.Call? && e.id in s.activities.completed ==> e.get == GetOf(s.store, s.activities.completed[e.id]))
  }

  function Step(s: Sys, e: Event, env: Activity.Env): Sys {
    match e
    case InJournal(step, writer) =>
      if Enabled(s, step, writer) then s.(activities := Activity.Step(s.activities, step, env)) else s
    case InStore(call) => s.(store := Store.Step(s.store, call))
  }

  function Run(s: Sys, events: seq<Event>, env: Activity.Env): Sys {
    if events == [] then s else Step(Run(s, events[..|events| - 1], env), events[|events| - 1], env)
  }

  ghost predicate Covered(e: Event, synced: bool) { e.InStore? ==> Store.Covered(e.call, synced) }

  /** What the runtime takes for completed names an artifact whose `put` finished. */
  ghost predicate Published(s: Activity.Sys) {
    forall id {:trigger id in s.completed} :: id in s.completed ==> s.completed[id] in s.finished
  }

  ghost predicate Inv(s: Sys, env: Activity.Env, synced: bool) {
    && Activity.Ordered(s.activities, env.nfc) && Published(s.activities)
    && Store.Invariant(s.store) && (synced ==> Store.Durable(s.store))
    && forall a :: a in s.activities.finished ==> Store.Intact(s.store, a)
  }

  // ----- The activities alone

  lemma {:induction false} ProjectedArePublished(records: seq<Record>, finished: set<Store.Address>)
    requires Activity.EndsPublished(records, finished)
    ensures forall id {:trigger id in Activity.CompletedOf(records)} :: id in Activity.CompletedOf(records) ==>
              Activity.CompletedOf(records)[id] in finished
  {
    if records != [] {
      var n := |records| - 1;
      assert forall i :: 0 <= i < n ==> records[..n][i] == records[i];
      ProjectedArePublished(records[..n], finished);
    }
  }

  /** A step publishes at most the artifact of the `put` that succeeded, and completes only with what is published. */
  lemma StepPublishes(s: Activity.Sys, e: Activity.Event, env: Activity.Env)
    requires Activity.Ordered(s, env.nfc) && Published(s)
    ensures var t := Activity.Step(s, e, env);
            && Activity.Ordered(t, env.nfc) && Published(t)
            && t.finished == s.finished + if e.PutSettled? && e.ok && s.phase.Putting? then {s.phase.artifact} else {}
  {
    hide Activity.EndsAfterStart, Activity.EndsPublished, Activity.Started, Activity.CompletedOf, Activity.AttemptsOf,
        Activity.Written;
    if e.Crash? {
      var written := Activity.Written(s, env.nfc);
      var m := Whole(written, env.codec, e.kept);
      Activity.WrittenFits(s, env);
      Activity.RestartFits(s, written, m, env);
      EndsOfPrefix(written, m, s.finished);
      ProjectedArePublished(written[..m], s.finished);
    } else {
      Activity.StepOrdered(s, e, env);
    }
  }

  lemma EndsOfPrefix(records: seq<Record>, m: nat, finished: set<Store.Address>)
    requires Activity.EndsPublished(records, finished) && m <= |records|
    ensures Activity.EndsPublished(records[..m], finished)
  {
  }

  // ----- Together

  lemma ReturnedIsIntact(store: Store.Sys, writer: nat, artifact: Store.Address)
    requires Store.Invariant(store) && Returned(store, writer, artifact)
    ensures Store.Intact(store, artifact)
  {
    hide Store.Intact;
    Store.StagedOf(store, writer);
  }

  lemma StepKeeps(s: Sys, e: Event, env: Activity.Env, synced: bool)
    requires Inv(s, env, synced) && Covered(e, synced)
    ensures Inv(Step(s, e, env), env, synced)
  {
    hide Activity.Ordered, Activity.Step, Published, Store.Invariant, Store.Durable, Store.Intact, Store.Step,
        Store.Covered;
    match e
    case InJournal(step, writer) =>
      StepPublishes(s.activities, step, env);
      if Enabled(s, step, writer) && step.PutSettled? && step.ok && s.activities.phase.Putting? {
        ReturnedIsIntact(s.store, writer, s.activities.phase.artifact);
      }
    case InStore(call) => Store.StepKeepsInvariant(s.store, call, synced);
  }

  lemma {:induction false} RunKeeps(s: Sys, events: seq<Event>, env: Activity.Env, synced: bool)
    requires Inv(s, env, synced) && forall i {:trigger events[i]} :: 0 <= i < |events| ==> Covered(events[i], synced)
    ensures Inv(Run(s, events, env), env, synced)
  {
    hide Inv, Step, Covered;
    if events != [] {
      RunKeeps(s, events[..|events| - 1], env, synced);
      StepKeeps(Run(s, events[..|events| - 1], env), events[|events| - 1], env, synced);
    }
  }

  /**
   * Over every interleaving of activities by any IDs, other writers and crashes, of power
   * too where every `put` syncs: each `end` in the journal names an artifact that is whole,
   * and so does whatever the runtime takes for completed, before or after a restart.
   */
  lemma CompletedCanBeRead(store: Store.Sys, events: seq<Event>, env: Activity.Env, synced: bool)
    requires Store.Initial(store)
    requires forall i {:trigger events[i]} :: 0 <= i < |events| ==> Covered(events[i], synced)
    ensures var s := Run(Sys(Activity.START, store), events, env);
            && (forall k {:trigger s.activities.records[k]} ::
                  0 <= k < |s.activities.records| && s.activities.records[k].End? ==>
                  GetOf(s.store, s.activities.records[k].artifact) == Activity.Readable)
            && (forall id {:trigger id in s.activities.completed} :: id in s.activities.completed ==>
                  GetOf(s.store, s.activities.completed[id]) == Activity.Readable)
  {
    hide Run, Store.Invariant, Covered, Activity.EndsAfterStart;
    var start := Sys(Activity.START, store);
    assert Inv(start, env, synced) by {
      StartFits(store, env);
    }
    RunKeeps(start, events, env, synced);
  }

  lemma StartFits(store: Store.Sys, env: Activity.Env)
    requires Store.Initial(store)
    ensures Inv(Sys(Activity.START, store), env, true) && Inv(Sys(Activity.START, store), env, false)
  {
  }

  // ----- An activity that completes

  function Journaled(steps: seq<Activity.Event>, writer: nat): seq<Event> {
    if steps == [] then []
    else Journaled(steps[..|steps| - 1], writer) + [InJournal(steps[|steps| - 1], writer)]
  }

  /** Steps that can all happen run as they do without a store. */
  lemma {:induction false} JournaledRuns(s: Sys, steps: seq<Activity.Event>, writer: nat, env: Activity.Env)
    requires forall k {:trigger steps[..k]} :: 0 <= k < |steps| ==>
               Enabled(s.(activities := Activity.Run(s.activities, steps[..k], env)), steps[k], writer)
    ensures Run(s, Journaled(steps, writer), env) == s.(activities := Activity.Run(s.activities, steps, env))
  {
    hide Enabled, Activity.Step;
    if steps != [] {
      var n := |steps| - 1;
      var front := steps[..n];
      forall k {:trigger front[..k]} | 0 <= k < n
        ensures Enabled(s.(activities := Activity.Run(s.activities, front[..k], env)), front[k], writer)
      {
        assert front[..k] == steps[..k];
      }
      JournaledRuns(s, front, writer, env);
      assert Enabled(s.(activities := Activity.Run(s.activities, steps[..n], env)), steps[n], writer);
      assert Journaled(steps, writer)[..|Journaled(steps, writer)| - 1] == Journaled(front, writer);
    }
  }

  /** With the artifact published, an activity's steps all happen: its
      start and its end are on record, and calling it again restores it. */
  lemma ActivityCompletes(store: Store.Sys, writer: nat, id: Id, a: Store.Address, env: Activity.Env)
    requires Store.Invariant(store) && Returned(store, writer, a) && id != []
    ensures var t := Run(Sys(Activity.START, store), Journaled(Activity.Succeeded(id, a), writer), env);
            && t.store == store && t.activities.completed == map[id := a] && GetOf(t.store, a) == Activity.Readable
            && t.activities.records == [AttemptStart(env.nfc(id), 1), End(env.nfc(id), 1, a)]
  {
    hide Activity.Run, Activity.Step, Store.Invariant, Store.Intact, Returned;
    var s, steps := Sys(Activity.START, store), Activity.Succeeded(id, a);
    assert steps[..0] == [];
    Activity.RunEmpty(Activity.START, env);
    Activity.PutsWhatFnGave(id, a, env);
    forall k {:trigger steps[..k]} | 0 <= k < |steps|
      ensures Enabled(s.(activities := Activity.Run(s.activities, steps[..k], env)), steps[k], writer)
    {
    }
    JournaledRuns(s, steps, writer, env);
    Activity.SucceededRuns(id, a, env);
    ReturnedIsIntact(store, writer, a);
    GetOfIs(store, a);
  }

  // ----- Restored rather than run

  lemma CompletedReads(s: Sys, id: Id, env: Activity.Env, synced: bool)
    requires Inv(s, env, synced) && id in s.activities.completed
    ensures GetOf(s.store, s.activities.completed[id]) == Activity.Readable
  {
    hide Store.Invariant, Store.Durable, Activity.Ordered;
    assert Store.Intact(s.store, s.activities.completed[id]);
  }

  /** Calling a completed activity changes nothing: the call finds its artifact readable. */
  lemma CompletedIsRestored(s: Sys, call: Activity.Event, writer: nat, env: Activity.Env, synced: bool)
    requires Inv(s, env, synced) && call.Call? && call.id in s.activities.completed && Enabled(s, call, writer)
    ensures call.get == Activity.Readable && Step(s, InJournal(call, writer), env) == s
  {
    hide Inv;
    CompletedReads(s, call.id, env, synced);
  }

  /** A crash of the process leaves the bytes of record `k`. */
  ghost predicate KeepsRecord(s: Activity.Sys, e: Event, k: nat, env: Activity.Env) {
    e.InJournal? && e.step.Crash? ==>
      && k < |Activity.Written(s, env.nfc)|
      && |Encode(Activity.Written(s, env.nfc)[..k + 1], env.codec)| <= e.step.kept
  }

  lemma StepStaysSettled(s: Sys, e: Event, id: Id, k: nat, env: Activity.Env, synced: bool)
    requires Inv(s, env, synced) && Activity.Settled(s.activities, id, k) && KeepsRecord(s.activities, e, k, env)
    ensures var t := Step(s, e, env).activities;
            Activity.Settled(t, id, k) && Activity.RunsOf(t.runs, id) == Activity.RunsOf(s.activities.runs, id)
  {
    hide Inv, Activity.Step, Activity.Written, Activity.RunsOf, Encode, GetOf;
    if e.InJournal? && Enabled(s, e.step, e.writer) {
      CompletedReads(s, id, env, synced);
      assert Activity.Spares(s.activities, e.step, id, k, env);
      Activity.StepStaysSettled(s.activities, e.step, id, k, env);
    }
  }

  /**
   * Once its end is on record, `fn` of an activity never runs again, over every later interleaving with other writers,
   * restarts and, where every `put` syncs, losses of power, as long as no crash takes the bytes of that record.
   */
  lemma {:induction false} CompletedNeverRunsAgain(s: Sys, events: seq<Event>, id: Id, k: nat, env: Activity.Env,
      synced: bool)
    requires Inv(s, env, synced) && Activity.Settled(s.activities, id, k)
    requires forall i {:trigger events[i]} :: 0 <= i < |events| ==>
               Covered(events[i], synced) && KeepsRecord(Run(s, events[..i], env).activities, events[i], k, env)
    ensures var t := Run(s, events, env).activities;
            Activity.Settled(t, id, k) && Activity.RunsOf(t.runs, id) == Activity.RunsOf(s.activities.runs, id)
  {
    hide Inv, Step, Covered, KeepsRecord, Activity.Settled, Activity.RunsOf;
    if events != [] {
      var n := |events| - 1;
      var front := events[..n];
      forall i {:trigger front[i]} | 0 <= i < n
        ensures Covered(front[i], synced) && KeepsRecord(Run(s, front[..i], env).activities, front[i], k, env)
      {
        assert front[i] == events[i] && front[..i] == events[..i];
      }
      CompletedNeverRunsAgain(s, front, id, k, env, synced);
      RunKeeps(s, front, env, synced);
      assert Covered(events[n], synced);
      StepStaysSettled(Run(s, front, env), events[n], id, k, env, synced);
    }
  }
}
