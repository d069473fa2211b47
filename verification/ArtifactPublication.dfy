/** Publication of content-addressed artifacts: concurrent writers
    stage, link and rename files, and may crash at any step. */
module ArtifactPublication {
  import opened Hashing
  import opened Options

  /** The name `<hash>.<extension>` under which an artifact is published. */
  datatype Address = Address(hash: Digest, extension: string)

  /** The name `<address>.<pid>-<sequence>.tmp` a writer stages under. */
  datatype StagingName = StagingName(target: Address, pid: nat, sequence: nat)

  /** `synced` says the content has reached the disk and survives a loss of power. */
  datatype File = File(bytes: Bytes, synced: bool)

  datatype Policy = Always | ExpensiveOnly | Never
  datatype Durability = Cheap | Expensive

  predicate ShouldFsync(policy: Policy, durability: Durability) {
    policy == Always || (policy == ExpensiveOnly && durability == Expensive)
  }

  /** Where a `put` stands. `Cleanup` runs the final unlink and then returns or throws. */
  datatype Stage =
    | Started
    | Opening(existed: bool)
    | Writing(existed: bool)
    | Written(existed: bool)
    | Closed(existed: bool)
    | Taken
    | Swapping
    | Cleanup(succeeded: bool)
    | Returned
    | Threw

  datatype Writer = Writer(bytes: Bytes, name: StagingName, sync: bool, stage: Stage)

  datatype Sys = Sys(finals: map<Address, File>, stagings: map<StagingName, File>, writers: map<nat, Writer>)

  /** `Advance` takes a writer's next file-system call; `fails` makes
      it fail, and `written` is how much a partial write wrote. */
  datatype Event =
    | Begin(id: nat, bytes: Bytes, extension: string, pid: nat, sequence: nat, sync: bool)
    | Advance(id: nat, fails: bool, written: nat)
    | Crash(id: nat)
    | PowerLoss(kept: map<Address, nat>, keptStagings: map<StagingName, nat>)

  function AddressOf(bytes: Bytes, extension: string): Address { Address(Sha256(bytes), extension) }

  predicate Matches(existing: Bytes, expected: Bytes) {
    |existing| == |expected| && Sha256(existing) == Sha256(expected)
  }

  predicate Live(w: Writer) { !w.stage.Returned? && !w.stage.Threw? }

  /** The writer owns its staging file, from creating it until the final unlink. */
  predicate Owns(w: Writer) {
    w.stage.Writing? || w.stage.Written? || w.stage.Closed? || w.stage.Taken? || w.stage.Swapping?
  }

  /** Live writers have distinct staging names: the pid separates processes, the counter the puts within one. */
  predicate NameFree(writers: map<nat, Writer>, name: StagingName) {
    forall id :: id in writers && Live(writers[id]) ==> writers[id].name != name
  }

  // ----- Steps

  function Cut(file: File, kept: nat): File {
    if file.synced || kept > |file.bytes| then file.(synced := true) else File(file.bytes[..kept], true)
  }

  /** The files after a call of a writer, and where the writer then stands. */
  datatype Outcome = Outcome(finals: map<Address, File>, stagings: map<StagingName, File>, stage: Stage)

  /** The next file-system call of a writer. */
  function Call(finals: map<Address, File>, stagings: map<StagingName, File>, w: Writer, fails: bool,
      written: nat): Outcome {
    var target := w.name.target;
    match w.stage
    case Started =>
      if fails then Outcome(finals, stagings, Threw)
      else if target in finals && Matches(finals[target].bytes, w.bytes) then Outcome(finals, stagings, Returned)
      else Outcome(finals, stagings, Opening(target in finals))
    case Opening(existed) =>
      if fails || w.name in stagings then Outcome(finals, stagings, Threw)
      else Outcome(finals, stagings[w.name := File([], false)], Writing(existed))
    case Writing(existed) =>
      if fails then Outcome(finals,
          stagings[w.name := File(w.bytes[..if written <= |w.bytes| then written else |w.bytes|], false)],
          Cleanup(false))
      else Outcome(finals, stagings[w.name := File(w.bytes, false)], Written(existed))
    case Written(existed) =>
      if fails then Outcome(finals, stagings, Cleanup(false))
      else Outcome(finals, stagings[w.name := File(w.bytes, w.sync)], Closed(existed))
    case Closed(existed) =>
      if fails then Outcome(finals, stagings, Cleanup(false))
      else if existed then Outcome(finals, stagings, Swapping)
      else if target in finals then Outcome(finals, stagings, Taken)
      else if w.name !in stagings then Outcome(finals, stagings, Cleanup(false))
      else Outcome(finals[target := stagings[w.name]], stagings, Cleanup(true))
    case Taken =>
      if fails then Outcome(finals, stagings, Cleanup(false))
      else if target in finals && Matches(finals[target].bytes, w.bytes) then Outcome(finals, stagings, Cleanup(true))
      else Outcome(finals, stagings, Swapping)
    case Swapping =>
      if fails || w.name !in stagings then Outcome(finals, stagings, Cleanup(false))
      else Outcome(finals[target := stagings[w.name]], stagings - {w.name}, Cleanup(true))
    case Cleanup(succeeded) =>
      if fails then Outcome(finals, stagings, Threw)
      else Outcome(finals, stagings - {w.name}, if succeeded then Returned else Threw)
    case Returned => Outcome(finals, stagings, Returned)
    case Threw => Outcome(finals, stagings, Threw)
  }

  function AdvanceWriter(s: Sys, id: nat, fails: bool, written: nat): Sys
    requires id in s.writers
  {
    var next := Call(s.finals, s.stagings, s.writers[id], fails, written);
    Sys(next.finals, next.stagings, s.writers[id := s.writers[id].(stage := next.stage)])
  }

  function Step(s: Sys, e: Event): Sys {
    match e
    case Begin(id, bytes, extension, pid, sequence, sync) =>
      var name := StagingName(AddressOf(bytes, extension), pid, sequence);
      if id in s.writers || !NameFree(s.writers, name) then s
      else s.(writers := s.writers[id := Writer(bytes, name, sync, Started)])
    case Advance(id, fails, written) => if id in s.writers then AdvanceWriter(s, id, fails, written) else s
    case Crash(id) => if id in s.writers && Live(s.writers[id]) then s.(writers := s.writers - {id}) else s
    case PowerLoss(kept, keptStagings) =>
      Sys(map a | a in s.finals :: Cut(s.finals[a], if a in kept then kept[a] else 0),
          map n | n in s.stagings :: Cut(s.stagings[n], if n in keptStagings then keptStagings[n] else 0),
          map id | id in s.writers && !Live(s.writers[id]) :: s.writers[id])
  }

  function Run(s: Sys, events: seq<Event>): Sys {
    if events == [] then s else Step(Run(s, events[..|events| - 1]), events[|events| - 1])
  }

  /** A store found at start: files of any content, whole or torn, that are on the disk as they are, and no writer. */
  ghost predicate Initial(s: Sys) {
    && s.writers == map[]
    && (forall a :: a in s.finals ==> s.finals[a].synced)
    && (forall n :: n in s.stagings ==> s.stagings[n].synced)
  }

  // ----- What every step keeps

  /** The file at an address holds exactly the bytes the address names. */
  predicate Intact(s: Sys, a: Address) { a in s.finals && s.finals[a].bytes == a.hash.content }

  /** The staging file of a live writer holds what its stage says. */
  ghost predicate StagedAsItSays(s: Sys, w: Writer) {
    && w.name.target.hash == Sha256(w.bytes)
    && (Owns(w) ==> w.name in s.stagings)
    && (w.stage.Written? ==> s.stagings[w.name].bytes == w.bytes)
    && (w.stage.Closed? || w.stage.Taken? || w.stage.Swapping? ==> s.stagings[w.name] == File(w.bytes, w.sync))
    && (w.stage == Cleanup(true) || w.stage.Returned? ==> Intact(s, w.name.target))
  }

  /** Live writers stage under different names. */
  ghost predicate NamesDiffer(s: Sys) {
    forall i, j :: i in s.writers && j in s.writers && i != j && Live(s.writers[i]) && Live(s.writers[j]) ==>
      s.writers[i].name != s.writers[j].name
  }

  /** What the writers of one address hold and left. */
  ghost predicate InvariantAt(s: Sys, a: Address) {
    forall id :: id in s.writers && s.writers[id].name.target == a ==> StagedAsItSays(s, s.writers[id])
  }

  ghost predicate Invariant(s: Sys) {
    NamesDiffer(s) && forall id :: id in s.writers ==> StagedAsItSays(s, s.writers[id])
  }

  /** The file at the address, if any, is on the disk, and every writer of the address syncs before it publishes. */
  ghost predicate DurableAt(s: Sys, a: Address) {
    && (a in s.finals ==> s.finals[a].synced)
    && (forall id :: id in s.writers && s.writers[id].name.target == a ==> s.writers[id].sync)
  }

  ghost predicate Durable(s: Sys) {
    && (forall a :: a in s.finals ==> s.finals[a].synced)
    && (forall id :: id in s.writers ==> s.writers[id].sync)
  }

  lemma StagedOf(s: Sys, id: nat)
    requires Invariant(s) && id in s.writers
    ensures StagedAsItSays(s, s.writers[id])
  {
  }

  /** One writer's call changes only its own record. */
  lemma AdvanceMovesOnlyItself(s: Sys, id: nat, fails: bool, written: nat)
    requires id in s.writers
    ensures var after := AdvanceWriter(s, id, fails, written);
            && after.writers.Keys == s.writers.Keys
            && (forall other :: other in s.writers && other != id ==> after.writers[other] == s.writers[other])
            && (Live(after.writers[id]) ==> Live(s.writers[id])) && after.writers[id].name == s.writers[id].name
  {
    hide Call;
    DoneStays(s, id, fails, written);
  }

  /** One writer's call touches no staging file but its own. */
  lemma AdvanceTouchesOnlyItsFile(s: Sys, id: nat, fails: bool, written: nat, n: StagingName)
    requires id in s.writers && n != s.writers[id].name
    ensures var after := AdvanceWriter(s, id, fails, written);
            (n in after.stagings <==> n in s.stagings) && (n in s.stagings ==> after.stagings[n] == s.stagings[n])
  {
    hide Matches, ShouldFsync;
  }

  /** One writer's call never harms an intact artifact. */
  lemma AdvanceKeepsIntact(s: Sys, id: nat, fails: bool, written: nat)
    requires id in s.writers && StagedAsItSays(s, s.writers[id])
    ensures forall a :: Intact(s, a) ==> Intact(AdvanceWriter(s, id, fails, written), a)
  {
  }

  predicate Early(stage: Stage) { stage.Started? || stage.Opening? || stage.Writing? || stage.Written? }

  lemma EarlyStages(s: Sys, id: nat, fails: bool, written: nat)
    requires id in s.writers && StagedAsItSays(s, s.writers[id]) && Early(s.writers[id].stage)
    ensures StagedAsItSays(AdvanceWriter(s, id, fails, written), AdvanceWriter(s, id, fails, written).writers[id])
  {
  }

  lemma LateStages(s: Sys, id: nat, fails: bool, written: nat)
    requires id in s.writers && StagedAsItSays(s, s.writers[id]) && !Early(s.writers[id].stage)
    ensures StagedAsItSays(AdvanceWriter(s, id, fails, written), AdvanceWriter(s, id, fails, written).writers[id])
  {
  }

  lemma AdvanceStages(s: Sys, id: nat, fails: bool, written: nat)
    requires id in s.writers && StagedAsItSays(s, s.writers[id])
    ensures StagedAsItSays(AdvanceWriter(s, id, fails, written), AdvanceWriter(s, id, fails, written).writers[id])
  {
    hide AdvanceWriter, StagedAsItSays;
    if Early(s.writers[id].stage) {
      EarlyStages(s, id, fails, written);
    } else {
      LateStages(s, id, fails, written);
    }
  }

  lemma DoneSaysIntact(s: Sys, after: Sys, w: Writer)
    requires StagedAsItSays(s, w) && !Live(w)
    requires Intact(s, w.name.target) ==> Intact(after, w.name.target)
    ensures StagedAsItSays(after, w)
  {
    hide Intact;
  }

  /** What the others staged is as it was, and what they published is intact. */
  lemma OthersStay(s: Sys, after: Sys, other: nat, name: StagingName)
    requires other in s.writers && StagedAsItSays(s, s.writers[other])
    requires name == s.writers[other].name
    requires (name in after.stagings <==> name in s.stagings)
             && (name in s.stagings ==> after.stagings[name] == s.stagings[name])
    requires Intact(s, name.target) ==> Intact(after, name.target)
    ensures StagedAsItSays(after, s.writers[other])
  {
    hide Intact;
  }

  /** One writer's call touches no address but its own. */
  lemma AdvanceTouchesOnlyItsAddress(s: Sys, id: nat, fails: bool, written: nat, a: Address)
    requires id in s.writers && a != s.writers[id].name.target
    ensures var after := AdvanceWriter(s, id, fails, written);
            (a in after.finals <==> a in s.finals) && (a in s.finals ==> after.finals[a] == s.finals[a])
  {
    hide Matches, ShouldFsync;
  }

  lemma IntactStays(s: Sys, id: nat, fails: bool, written: nat, a: Address)
    requires InvariantAt(s, a) && id in s.writers
    ensures Intact(s, a) ==> Intact(AdvanceWriter(s, id, fails, written), a)
  {
    hide AdvanceWriter, StagedAsItSays;
    if s.writers[id].name.target == a {
      AdvanceKeepsIntact(s, id, fails, written);
    } else {
      AdvanceTouchesOnlyItsAddress(s, id, fails, written, a);
    }
  }

  /** A writer of another name is left what it staged, whichever address either writes to. */
  lemma OtherStaysStaged(s: Sys, id: nat, fails: bool, written: nat, other: nat)
    requires id in s.writers && other in s.writers && other != id && NamesDiffer(s)
    requires InvariantAt(s, s.writers[other].name.target)
    ensures StagedAsItSays(AdvanceWriter(s, id, fails, written), s.writers[other])
  {
    hide AdvanceWriter, StagedAsItSays, Intact;
    var after := AdvanceWriter(s, id, fails, written);
    IntactStays(s, id, fails, written, s.writers[other].name.target);
    if !Live(s.writers[id]) {
      DoneStays(s, id, fails, written);
    } else if Live(s.writers[other]) {
      AdvanceTouchesOnlyItsFile(s, id, fails, written, s.writers[other].name);
      OthersStay(s, after, other, s.writers[other].name);
    } else {
      DoneSaysIntact(s, after, s.writers[other]);
    }
  }

  lemma AdvanceKeepsAt(s: Sys, id: nat, fails: bool, written: nat, a: Address)
    requires NamesDiffer(s) && InvariantAt(s, a) && id in s.writers
    ensures InvariantAt(AdvanceWriter(s, id, fails, written), a)
  {
    hide AdvanceWriter, StagedAsItSays, Intact, NamesDiffer;
    var after := AdvanceWriter(s, id, fails, written);
    AdvanceMovesOnlyItself(s, id, fails, written);
    forall other | other in after.writers && after.writers[other].name.target == a
      ensures StagedAsItSays(after, after.writers[other])
    {
      if other == id {
        AdvanceStages(s, id, fails, written);
      } else {
        OtherStaysStaged(s, id, fails, written, other);
      }
    }
  }

  lemma DoneStays(s: Sys, id: nat, fails: bool, written: nat)
    requires id in s.writers
    ensures !Live(s.writers[id]) ==> AdvanceWriter(s, id, fails, written) == s
  {
  }

  lemma AdvanceKeepsDurableAt(s: Sys, id: nat, fails: bool, written: nat, a: Address)
    requires InvariantAt(s, a) && DurableAt(s, a) && id in s.writers
    ensures DurableAt(AdvanceWriter(s, id, fails, written), a)
  {
    hide AdvanceWriter;
    AdvanceMovesOnlyItself(s, id, fails, written);
    WritersStaySynced(s, id, fails, written);
    if s.writers[id].name.target == a {
      AdvanceStaysDurable(s, id, fails, written);
    } else {
      AdvanceTouchesOnlyItsAddress(s, id, fails, written, a);
    }
  }

  lemma WritersStaySynced(s: Sys, id: nat, fails: bool, written: nat)
    requires id in s.writers
    ensures AdvanceWriter(s, id, fails, written).writers[id].sync == s.writers[id].sync
  {
    hide Call;
  }

  lemma AdvanceStaysDurable(s: Sys, id: nat, fails: bool, written: nat)
    requires id in s.writers && StagedAsItSays(s, s.writers[id]) && s.writers[id].sync
    requires s.writers[id].name.target in s.finals ==> s.finals[s.writers[id].name.target].synced
    ensures var after := AdvanceWriter(s, id, fails, written);
            s.writers[id].name.target in after.finals ==> after.finals[s.writers[id].name.target].synced
  {
    hide Matches;
  }

  /** A loss of power leaves what is durable at an address, whatever it takes from others. */
  lemma PowerLossKeepsAt(s: Sys, kept: map<Address, nat>, keptStagings: map<StagingName, nat>, a: Address)
    requires InvariantAt(s, a) && DurableAt(s, a)
    ensures var after := Step(s, PowerLoss(kept, keptStagings));
            InvariantAt(after, a) && DurableAt(after, a) && (Intact(s, a) ==> Intact(after, a))
  {
    var after := Step(s, PowerLoss(kept, keptStagings));
    forall id | id in after.writers && after.writers[id].name.target == a
      ensures StagedAsItSays(after, after.writers[id])
    {
      assert StagedAsItSays(s, s.writers[id]);
    }
  }

  lemma BeginKeepsAt(s: Sys, id: nat, bytes: Bytes, extension: string, pid: nat, sequence: nat, sync: bool, a: Address)
    requires InvariantAt(s, a)
    ensures InvariantAt(Step(s, Begin(id, bytes, extension, pid, sequence, sync)), a)
  {
    var after := Step(s, Begin(id, bytes, extension, pid, sequence, sync));
    forall other | other in after.writers && after.writers[other].name.target == a
      ensures StagedAsItSays(after, after.writers[other])
    {
      assert other in s.writers ==> StagedAsItSays(s, s.writers[other]);
    }
  }

  lemma CrashKeepsAt(s: Sys, id: nat, a: Address)
    requires InvariantAt(s, a)
    ensures InvariantAt(Step(s, Crash(id)), a)
  {
    var after := Step(s, Crash(id));
    forall other | other in after.writers && after.writers[other].name.target == a
      ensures StagedAsItSays(after, after.writers[other])
    {
      assert StagedAsItSays(s, s.writers[other]);
    }
  }

  lemma StepKeepsNames(s: Sys, e: Event)
    requires NamesDiffer(s)
    ensures NamesDiffer(Step(s, e))
  {
    hide AdvanceWriter;
    if e.Advance? && e.id in s.writers {
      AdvanceMovesOnlyItself(s, e.id, e.fails, e.written);
    }
  }

  /** Whether an event is one the promise covers: any step of any
      writer, any crash, and a loss of power when every put syncs. */
  predicate Covered(e: Event, synced: bool) {
    && (e.PowerLoss? ==> synced)
    && (e.Begin? && synced ==> e.sync)
  }

  /** The same for one address: a loss of power when every put for the address syncs. */
  predicate CoveredAt(e: Event, a: Address, synced: bool) {
    && (e.PowerLoss? ==> synced)
    && (e.Begin? && synced && AddressOf(e.bytes, e.extension) == a ==> e.sync)
  }

  /** A writer that returned is left as it is; starting or losing a writer touches no file. */
  lemma StepFrames(s: Sys, e: Event, a: Address)
    ensures forall id :: id in s.writers && s.writers[id].stage.Returned? ==>
            id in Step(s, e).writers && Step(s, e).writers[id] == s.writers[id]
    ensures e.Begin? || e.Crash? ==>
            Step(s, e).finals == s.finals && (Intact(s, a) ==> Intact(Step(s, e), a))
    ensures (e.Crash? || e.Begin?) && CoveredAt(e, a, true) && DurableAt(s, a) ==> DurableAt(Step(s, e), a)
  {
    hide AdvanceWriter;
    if e.Advance? && e.id in s.writers {
      AdvanceMovesOnlyItself(s, e.id, e.fails, e.written);
      if !Live(s.writers[e.id]) {
        DoneStays(s, e.id, e.fails, e.written);
      }
    }
  }

  lemma StepKeepsAt(s: Sys, e: Event, a: Address, synced: bool)
    requires NamesDiffer(s) && InvariantAt(s, a) && (synced ==> DurableAt(s, a)) && CoveredAt(e, a, synced)
    ensures InvariantAt(Step(s, e), a) && (synced ==> DurableAt(Step(s, e), a))
    ensures Intact(s, a) ==> Intact(Step(s, e), a)
  {
    hide NamesDiffer, InvariantAt, AdvanceWriter, Intact, DurableAt;
    StepFrames(s, e, a);
    match e {
      case Begin(id, bytes, extension, pid, sequence, sync) =>
        BeginKeepsAt(s, id, bytes, extension, pid, sequence, sync, a);
      case Advance(id, fails, written) =>
        if id in s.writers {
          AdvanceKeepsAt(s, id, fails, written, a);
          IntactStays(s, id, fails, written, a);
          if synced {
            AdvanceKeepsDurableAt(s, id, fails, written, a);
          }
        }
      case Crash(id) => CrashKeepsAt(s, id, a);
      case PowerLoss(kept, keptStagings) => PowerLossKeepsAt(s, kept, keptStagings, a);
    }
  }

  /** One address over any run: what its own puts do decides what a loss of power can do to it. */
  lemma {:induction false} RunKeepsAt(s: Sys, events: seq<Event>, a: Address, synced: bool)
    requires NamesDiffer(s) && InvariantAt(s, a) && (synced ==> DurableAt(s, a))
    requires forall i :: 0 <= i < |events| ==> CoveredAt(events[i], a, synced)
    ensures NamesDiffer(Run(s, events)) && InvariantAt(Run(s, events), a)
    ensures synced ==> DurableAt(Run(s, events), a)
    ensures Intact(s, a) ==> Intact(Run(s, events), a)
  {
    hide NamesDiffer, InvariantAt, Step, Intact, DurableAt, CoveredAt;
    if events != [] {
      var front := events[..|events| - 1];
      RunKeepsAt(s, front, a, synced);
      StepKeepsNames(Run(s, front), events[|events| - 1]);
      StepKeepsAt(Run(s, front), events[|events| - 1], a, synced);
    }
  }

  // ----- All addresses

  lemma InvariantIsAt(s: Sys)
    ensures Invariant(s) <==> NamesDiffer(s) && forall a :: InvariantAt(s, a)
  {
    hide StagedAsItSays;
    if NamesDiffer(s) && forall a :: InvariantAt(s, a) {
      forall id | id in s.writers ensures StagedAsItSays(s, s.writers[id]) {
        assert InvariantAt(s, s.writers[id].name.target);
      }
    }
  }

  lemma DurableIsAt(s: Sys)
    ensures Durable(s) <==> forall a :: DurableAt(s, a)
  {
    if forall a :: DurableAt(s, a) {
      forall id | id in s.writers ensures s.writers[id].sync {
        assert DurableAt(s, s.writers[id].name.target);
      }
      forall a | a in s.finals ensures s.finals[a].synced {
        assert DurableAt(s, a);
      }
    }
  }

  lemma StepKeepsInvariant(s: Sys, e: Event, synced: bool)
    requires Invariant(s) && (synced ==> Durable(s)) && Covered(e, synced)
    ensures Invariant(Step(s, e)) && (synced ==> Durable(Step(s, e)))
    ensures forall a :: Intact(s, a) ==> Intact(Step(s, e), a)
    ensures forall id :: id in s.writers && s.writers[id].stage.Returned? ==>
            id in Step(s, e).writers && Step(s, e).writers[id] == s.writers[id]
  {
    hide Invariant, Step, Intact, Durable, NamesDiffer, InvariantAt, DurableAt;
    InvariantIsAt(s);
    DurableIsAt(s);
    StepFrames(s, e, AddressOf([], ""));
    StepKeepsNames(s, e);
    forall a
      ensures InvariantAt(Step(s, e), a) && (synced ==> DurableAt(Step(s, e), a))
      ensures Intact(s, a) ==> Intact(Step(s, e), a)
    {
      StepKeepsAt(s, e, a, synced);
    }
    InvariantIsAt(Step(s, e));
    DurableIsAt(Step(s, e));
  }

  lemma {:induction false} RunKeepsInvariant(s: Sys, events: seq<Event>, synced: bool)
    requires Invariant(s) && (synced ==> Durable(s)) && forall i :: 0 <= i < |events| ==> Covered(events[i], synced)
    ensures Invariant(Run(s, events)) && (synced ==> Durable(Run(s, events)))
    ensures forall a :: Intact(s, a) ==> Intact(Run(s, events), a)
    ensures forall id :: id in s.writers && s.writers[id].stage.Returned? ==>
            id in Run(s, events).writers && Run(s, events).writers[id] == s.writers[id]
  {
    hide Invariant, Step, Intact, Durable, Covered;
    if events != [] {
      var front := events[..|events| - 1];
      RunKeepsInvariant(s, front, synced);
      StepKeepsInvariant(Run(s, front), events[|events| - 1], synced);
    }
  }

  // ----- The promise

  /** `get`: the bytes at an address, when they pass the length and content checks. */
  function Get(s: Sys, a: Address, byteLength: nat): Option<Bytes> {
    if a in s.finals && |s.finals[a].bytes| == byteLength && Sha256(s.finals[a].bytes) == a.hash
    then Some(s.finals[a].bytes) else None
  }

  /** Every `put` that returned can be read back whole. */
  ghost predicate ReturnedPutsAreReadable(s: Sys) {
    forall id :: id in s.writers && s.writers[id].stage.Returned? ==>
      Get(s, s.writers[id].name.target, |s.writers[id].bytes|) == Some(s.writers[id].bytes)
  }

  /**
   * Over every interleaving of concurrent puts that crash at any step, from a store that may hold torn files,
   * a put that returned is readable ever after, and no later step of any writer changes an intact artifact.
   */
  lemma PublishedArtifactsStay(start: Sys, before: seq<Event>, after: seq<Event>, synced: bool)
    requires Initial(start)
    requires forall i :: 0 <= i < |before| ==> Covered(before[i], synced)
    requires forall i :: 0 <= i < |after| ==> Covered(after[i], synced)
    ensures var middle := Run(start, before);
            var end := Run(middle, after);
            && ReturnedPutsAreReadable(middle) && ReturnedPutsAreReadable(end)
            && (forall a :: Intact(middle, a) ==> Intact(end, a))
            && (forall id :: id in middle.writers && middle.writers[id].stage.Returned? ==>
                id in end.writers && end.writers[id] == middle.writers[id])
  {
    RunKeepsInvariant(start, before, synced);
    var middle := Run(start, before);
    RunKeepsInvariant(middle, after, synced);
    ReturnedAreReadable(middle);
    ReturnedAreReadable(Run(middle, after));
  }

  lemma ReturnedAreReadable(s: Sys)
    requires Invariant(s)
    ensures ReturnedPutsAreReadable(s)
  {
    forall id | id in s.writers && s.writers[id].stage.Returned?
      ensures Get(s, s.writers[id].name.target, |s.writers[id].bytes|) == Some(s.writers[id].bytes)
    {
      assert StagedAsItSays(s, s.writers[id]);
    }
  }

  /** Whatever is in two stores, and whatever lengths are asked for, `get` of an
      address gives only the bytes the address names, and nothing for a torn file. */
  lemma GetsAgree(s: Sys, t: Sys, a: Address, n: nat, m: nat)
    requires Get(s, a, n).Some?
    ensures AddressOf(Get(s, a, n).value, a.extension) == a && |Get(s, a, n).value| == n
    ensures Get(t, a, m).Some? ==> Get(t, a, m) == Get(s, a, n) && m == n
    ensures Get(t, a, n).Some? <==> Intact(t, a)
  {
  }

  /** A crash ends the writer alone: what it staged stays, and it makes no further call. */
  lemma CrashLeavesEverythingElse(s: Sys, id: nat, fails: bool, written: nat)
    requires id in s.writers && Live(s.writers[id])
    ensures var after := Step(s, Crash(id));
            && id !in after.writers && after.finals == s.finals && after.stagings == s.stagings
            && Step(after, Advance(id, fails, written)) == after
            && forall other :: other in s.writers && other != id ==>
                 other in after.writers && after.writers[other] == s.writers[other]
  {
  }

  /** A loss of power may leave any prefix of a file that was not synced, and nothing but the whole of one that was. */
  lemma PowerLossTears(s: Sys, a: Address, n: nat)
    requires a in s.finals && n <= |s.finals[a].bytes|
    ensures var after := Step(s, PowerLoss(map[a := n], map[]));
            a in after.finals
            && after.finals[a].bytes == if s.finals[a].synced then s.finals[a].bytes else s.finals[a].bytes[..n]
    ensures forall name :: name in s.stagings ==>
              var after := Step(s, PowerLoss(map[], map[name := n]));
              name in after.stagings && (n <= |s.stagings[name].bytes| && !s.stagings[name].synced ==>
                                         after.stagings[name].bytes == s.stagings[name].bytes[..n])
  {
  }

  /** A writer that finds the right bytes at its address, at the start or
      under a name another took, returns without touching any published file. */
  lemma FoundIsKept(s: Sys, id: nat, written: nat)
    requires id in s.writers && s.writers[id].name.target.hash == Sha256(s.writers[id].bytes)
    requires s.writers[id].stage.Started? || s.writers[id].stage.Taken?
    requires Intact(s, s.writers[id].name.target)
    ensures var after := AdvanceWriter(s, id, false, written);
            && after.finals == s.finals
            && after.writers[id].stage == if s.writers[id].stage.Started? then Returned else Cleanup(true)
  {
  }

  /** A published file is replaced only by a rename, by a writer that found it torn or another's to be. */
  lemma OnlyRenamesReplace(s: Sys, id: nat, fails: bool, written: nat)
    requires id in s.writers && !s.writers[id].stage.Swapping?
    ensures forall a :: a in s.finals ==>
              a in AdvanceWriter(s, id, fails, written).finals
              && AdvanceWriter(s, id, fails, written).finals[a] == s.finals[a]
    ensures AdvanceWriter(s, id, fails, written).writers[id].stage.Swapping? ==>
              s.writers[id].name.target in s.finals || s.writers[id].stage == Closed(true) || s.writers[id].stage.Taken?
    ensures s.writers[id].stage.Closed? && !s.writers[id].stage.existed && s.writers[id].name.target in s.finals ==>
              !AdvanceWriter(s, id, fails, written).writers[id].stage.Swapping?
  {
    hide Matches;
  }

  /** A put that is done leaves no staging file of its own, unless it failed to unlink or to create one. */
  lemma DoneLeavesNoStaging(s: Sys, id: nat, written: nat)
    requires id in s.writers && s.writers[id].stage.Cleanup?
    ensures var after := AdvanceWriter(s, id, false, written);
            && s.writers[id].name !in after.stagings && !Live(after.writers[id]) && after.finals == s.finals
  {
  }

  // ----- How a put ends

  /** The put has failed, or is about to throw. */
  predicate Doomed(stage: Stage) { stage.Threw? || stage == Cleanup(false) }

  /** A call of the writer that fails, or that finds its staging name taken. */
  predicate Hinders(s: Sys, e: Event, id: nat) {
    && e.Advance? && e.id == id && id in s.writers && Live(s.writers[id])
    && (e.fails || (s.writers[id].stage.Opening? && s.writers[id].name in s.stagings))
  }

  /** The calls a put still has to make, at most: one that found a torn file does not try to link. */
  function CallsLeft(stage: Stage): nat {
    match stage
    case Started => 8
    case Opening(existed) => if existed then 6 else 7
    case Writing(existed) => if existed then 5 else 6
    case Written(existed) => if existed then 4 else 5
    case Closed(existed) => if existed then 3 else 4
    case Taken => 3
    case Swapping => 2
    case Cleanup(_) => 1
    case Returned => 0
    case Threw => 0
  }

  /** Live writers have their own staging files, in every run: a loss of power ends all of them. */
  ghost predicate Staged(s: Sys) {
    NamesDiffer(s) && forall id :: id in s.writers && Owns(s.writers[id]) ==> s.writers[id].name in s.stagings
  }

  lemma AdvanceStaysStaged(s: Sys, id: nat, fails: bool, written: nat)
    requires Staged(s) && id in s.writers
    ensures Staged(AdvanceWriter(s, id, fails, written))
  {
    hide AdvanceWriter;
    var after := AdvanceWriter(s, id, fails, written);
    AdvanceMovesOnlyItself(s, id, fails, written);
    OwnsItsFile(s, id, fails, written);
    forall other | other in after.writers && Owns(after.writers[other])
      ensures after.writers[other].name in after.stagings
    {
      if other != id {
        if Live(s.writers[id]) {
          AdvanceTouchesOnlyItsFile(s, id, fails, written, s.writers[other].name);
        } else {
          DoneStays(s, id, fails, written);
        }
      }
    }
  }

  lemma OwnsItsFile(s: Sys, id: nat, fails: bool, written: nat)
    requires id in s.writers && (Owns(s.writers[id]) ==> s.writers[id].name in s.stagings)
    ensures var after := AdvanceWriter(s, id, fails, written);
            Owns(after.writers[id]) ==> after.writers[id].name in after.stagings
  {
    hide Matches;
  }

  lemma StepStaysStaged(s: Sys, e: Event)
    requires Staged(s)
    ensures Staged(Step(s, e))
  {
    hide AdvanceWriter;
    if e.Advance? && e.id in s.writers {
      AdvanceStaysStaged(s, e.id, e.fails, e.written);
    }
  }

  lemma {:induction false} RunStaysStaged(s: Sys, events: seq<Event>)
    requires Staged(s)
    ensures Staged(Run(s, events))
  {
    hide Step, Staged;
    if events != [] {
      RunStaysStaged(s, events[..|events| - 1]);
      StepStaysStaged(Run(s, events[..|events| - 1]), events[|events| - 1]);
    }
  }

  /** One call of a writer: it dooms the put if it is hindered, and in no other case. */
  lemma CallDooms(s: Sys, id: nat, fails: bool, written: nat)
    requires Staged(s) && id in s.writers
    ensures var was, now := s.writers[id].stage, AdvanceWriter(s, id, fails, written).writers[id].stage;
            && (Doomed(now) <==> Doomed(was) || Hinders(s, Advance(id, fails, written), id))
            && CallsLeft(now) <= if CallsLeft(was) > 0 then CallsLeft(was) - 1 else 0
  {
    hide Matches, NamesDiffer;
  }

  /** The same for any event that leaves the writer alive. */
  lemma StepDooms(s: Sys, e: Event, id: nat)
    requires Staged(s) && id in s.writers && id in Step(s, e).writers
    ensures var was, now := s.writers[id].stage, Step(s, e).writers[id].stage;
            && (Doomed(now) <==> Doomed(was) || Hinders(s, e, id))
            && CallsLeft(now) <= CallsLeft(was) && Step(s, e).writers[id].name == s.writers[id].name
            && (e.Advance? && e.id == id && CallsLeft(was) > 0 ==> CallsLeft(now) < CallsLeft(was))
  {
    hide AdvanceWriter, Staged, Doomed;
    if e.Advance? && e.id in s.writers {
      CallDooms(s, e.id, e.fails, e.written);
      AdvanceMovesOnlyItself(s, e.id, e.fails, e.written);
    }
  }

  /** How many of the events are calls of the writer. */
  function CallsOf(events: seq<Event>, id: nat): nat {
    if events == [] then 0
    else
      CallsOf(events[..|events| - 1], id)
      + if events[|events| - 1].Advance? && events[|events| - 1].id == id then 1 else 0
  }

  /** Every call of the writer counts once, wherever it stands in a run. */
  lemma {:induction false} CallsAdd(first: seq<Event>, second: seq<Event>, id: nat, fails: bool, written: nat)
    ensures CallsOf(first + second, id) == CallsOf(first, id) + CallsOf(second, id)
    ensures CallsOf([Advance(id, fails, written)], id) == 1
  {
    if second == [] {
      assert first + second == first;
    } else {
      var n := |second| - 1;
      CallsAdd(first, second[..n], id, fails, written);
      assert (first + second)[..|first| + n] == first + second[..n];
    }
  }

  /** The writer is there throughout the run: its process neither crashes nor loses power before it is done. */
  ghost predicate Survives(s: Sys, events: seq<Event>, id: nat) {
    forall k {:trigger events[..k]} :: 0 <= k <= |events| ==> id in Run(s, events[..k]).writers
  }

  ghost predicate Hindered(s: Sys, events: seq<Event>, id: nat) {
    exists k {:trigger events[..k]} :: 0 <= k < |events| && Hinders(Run(s, events[..k]), events[k], id)
  }

  lemma HinderedMore(s: Sys, events: seq<Event>, id: nat)
    requires events != []
    ensures var front := events[..|events| - 1];
            && (Hindered(s, events, id) <==>
                Hindered(s, front, id) || Hinders(Run(s, front), events[|events| - 1], id))
            && (Survives(s, events, id) ==> Survives(s, front, id) && id in Run(s, events).writers)
  {
    hide Hinders, Run;
    var n := |events| - 1;
    var front := events[..n];
    assert events[..n + 1] == events;
    assert forall k :: 0 <= k <= n ==> front[..k] == events[..k];
    if Hindered(s, front, id) {
      var k :| 0 <= k < n && Hinders(Run(s, front[..k]), front[k], id);
      assert Hinders(Run(s, events[..k]), events[k], id);
    }
    if Hindered(s, events, id) && !Hinders(Run(s, front), events[n], id) {
      var k :| 0 <= k < |events| && Hinders(Run(s, events[..k]), events[k], id);
      assert Hinders(Run(s, front[..k]), front[k], id);
    }
  }

  lemma {:induction false} RunDooms(s: Sys, events: seq<Event>, id: nat)
    requires Staged(s) && Survives(s, events, id)
    ensures id in s.writers && id in Run(s, events).writers
    ensures Doomed(Run(s, events).writers[id].stage) <==> Doomed(s.writers[id].stage) || Hindered(s, events, id)
    ensures CallsLeft(Run(s, events).writers[id].stage) + CallsOf(events, id) <= CallsLeft(s.writers[id].stage)
            || CallsLeft(Run(s, events).writers[id].stage) == 0
    ensures Run(s, events).writers[id].name == s.writers[id].name
  {
    hide Step, Staged, Doomed, Hinders, Hindered, Survives, CallsLeft;
    if events == [] {
      NothingHinders(s, id);
    } else {
      var front := events[..|events| - 1];
      HinderedMore(s, events, id);
      RunDooms(s, front, id);
      RunStaysStaged(s, front);
      StepDooms(Run(s, front), events[|events| - 1], id);
    }
  }

  lemma NothingHinders(s: Sys, id: nat)
    ensures !Hindered(s, [], id)
    ensures Survives(s, [], id) ==> id in s.writers
  {
    var none: seq<Event> := [];
    assert Run(s, none[..0]) == s;
  }

  /**
   * From any store, torn files and leftovers included, among any other writers, crashes and losses of
   * power: a put whose own process goes on ends after at most eight calls. It throws if and only if
   * one of its calls failed or its staging name was taken when it opened it; otherwise it returns.
   */
  lemma PutsEnd(start: Sys, before: seq<Event>, begin: Event, after: seq<Event>)
    requires start.writers == map[] && begin.Begin?
    requires begin.id !in Run(start, before).writers && begin.id in Step(Run(start, before), begin).writers
    requires Survives(Step(Run(start, before), begin), after, begin.id) && CallsOf(after, begin.id) >= 8
    ensures var begun := Step(Run(start, before), begin);
            && begin.id in Run(begun, after).writers
            && var w := Run(begun, after).writers[begin.id];
            && w.name.target == AddressOf(begin.bytes, begin.extension)
            && (w.stage.Threw? <==> Hindered(begun, after, begin.id))
            && (w.stage.Returned? <==> !Hindered(begun, after, begin.id))
  {
    hide Staged, Run, Hindered, Survives;
    StartIsStaged(start);
    RunStaysStaged(start, before);
    var begun := Step(Run(start, before), begin);
    StepStaysStaged(Run(start, before), begin);
    RunDooms(begun, after, begin.id);
  }

  lemma StartIsStaged(start: Sys)
    requires start.writers == map[]
    ensures Staged(start)
  {
  }

  /** Such a put, from a store found at start, leaves its address intact if it returns, whatever file was there. */
  lemma UnhinderedPutsPublish(start: Sys, before: seq<Event>, begin: Event, after: seq<Event>, synced: bool)
    requires Initial(start) && begin.Begin? && Covered(begin, synced)
    requires forall i :: 0 <= i < |before| ==> Covered(before[i], synced)
    requires forall i :: 0 <= i < |after| ==> Covered(after[i], synced)
    requires begin.id !in Run(start, before).writers && begin.id in Step(Run(start, before), begin).writers
    requires Survives(Step(Run(start, before), begin), after, begin.id) && CallsOf(after, begin.id) >= 8
    ensures var begun := Step(Run(start, before), begin);
            !Hindered(begun, after, begin.id) ==> Intact(Run(begun, after), AddressOf(begin.bytes, begin.extension))
  {
    hide Run, Step, Hindered, Survives, Covered, CallsOf, Invariant, Durable, Initial, Intact;
    InitialIsGood(start);
    PutsEnd(start, before, begin, after);
    RunKeepsInvariant(start, before, synced);
    var begun := Step(Run(start, before), begin);
    StepKeepsInvariant(Run(start, before), begin, synced);
    RunKeepsInvariant(begun, after, synced);
    StagedOf(Run(begun, after), begin.id);
  }

  lemma InitialIsGood(start: Sys)
    requires Initial(start)
    ensures Invariant(start) && Durable(start) && start.writers == map[]
  {
  }

  // ----- Loss of power

  const EMPTY := Sys(map[], map[], map[])

  /** A put of the bytes of an address with no rival and no failure. */
  function LonePut(a: Address, sync: bool): seq<Event> {
    [Begin(0, a.hash.content, a.extension, 1, 1, sync), Advance(0, false, 0), Advance(0, false, 0),
     Advance(0, false, 0), Advance(0, false, 0), Advance(0, false, 0), Advance(0, false, 0)]
  }

  /** Then a second put of the same bytes, which syncs, and a loss of power that keeps nothing unsynced. */
  function Followed(a: Address): seq<Event> {
    LonePut(a, false)
    + [Begin(1, a.hash.content, a.extension, 1, 2, true), Advance(1, false, 0), PowerLoss(map[], map[])]
  }

  function FirstWriter(a: Address, stage: Stage): Writer { Writer(a.hash.content, StagingName(a, 1, 1), false, stage) }

  function SecondWriter(a: Address, stage: Stage): Writer { Writer(a.hash.content, StagingName(a, 1, 2), true, stage) }

  /** The store after the first `k` events. */
  function FollowedState(a: Address, k: nat): Sys
    requires k <= 10
  {
    var name := StagingName(a, 1, 1);
    var file := File(a.hash.content, false);
    var done := FirstWriter(a, Returned);
    if k == 0 then EMPTY
    else if k == 1 then Sys(map[], map[], map[0 := FirstWriter(a, Started)])
    else if k == 2 then Sys(map[], map[], map[0 := FirstWriter(a, Opening(false))])
    else if k == 3 then Sys(map[], map[name := File([], false)], map[0 := FirstWriter(a, Writing(false))])
    else if k == 4 then Sys(map[], map[name := file], map[0 := FirstWriter(a, Written(false))])
    else if k == 5 then Sys(map[], map[name := file], map[0 := FirstWriter(a, Closed(false))])
    else if k == 6 then Sys(map[a := file], map[name := file], map[0 := FirstWriter(a, Cleanup(true))])
    else if k == 7 then Sys(map[a := file], map[], map[0 := done])
    else if k == 8 then Sys(map[a := file], map[], map[0 := done, 1 := SecondWriter(a, Started)])
    else if k == 9 then Sys(map[a := file], map[], map[0 := done, 1 := SecondWriter(a, Returned)])
    else Sys(map[a := File([], true)], map[], map[0 := done, 1 := SecondWriter(a, Returned)])
  }

  lemma SameSys(s: Sys, t: Sys)
    requires s.finals == t.finals && s.stagings == t.stagings && s.writers == t.writers
    ensures s == t
  {
  }

  lemma OpeningSteps(a: Address, k: nat)
    requires k < 3
    ensures Step(FollowedState(a, k), Followed(a)[k]) == FollowedState(a, k + 1)
  {
    var after := Step(FollowedState(a, k), Followed(a)[k]);
    SameSys(after, FollowedState(a, k + 1));
  }

  lemma WritingSteps(a: Address, k: nat)
    requires 3 <= k < 5
    ensures Step(FollowedState(a, k), Followed(a)[k]) == FollowedState(a, k + 1)
  {
    var after := Step(FollowedState(a, k), Followed(a)[k]);
    SameSys(after, FollowedState(a, k + 1));
  }

  lemma PublishingSteps(a: Address, k: nat)
    requires 5 <= k < 7
    ensures Step(FollowedState(a, k), Followed(a)[k]) == FollowedState(a, k + 1)
  {
    var after := Step(FollowedState(a, k), Followed(a)[k]);
    SameSys(after, FollowedState(a, k + 1));
  }

  lemma SecondPutSteps(a: Address, k: nat)
    requires 7 <= k < 9
    ensures Step(FollowedState(a, k), Followed(a)[k]) == FollowedState(a, k + 1)
  {
    var after := Step(FollowedState(a, k), Followed(a)[k]);
    SameSys(after, FollowedState(a, k + 1));
  }

  lemma LossStep(a: Address)
    requires a.hash.content != []
    ensures Step(FollowedState(a, 9), Followed(a)[9]) == FollowedState(a, 10)
  {
    var after := Step(FollowedState(a, 9), Followed(a)[9]);
    assert a.hash.content[..0] == [];
    SameSys(after, FollowedState(a, 10));
  }

  lemma StartOfPuts(a: Address)
    ensures FollowedState(a, 0) == EMPTY
  {
  }

  lemma {:induction false} FollowedReaches(a: Address, k: nat)
    requires a.hash.content != [] && k <= 10
    ensures Run(EMPTY, Followed(a)[..k]) == FollowedState(a, k)
  {
    hide Step, FollowedState;
    if k == 0 {
      StartOfPuts(a);
    } else {
      FollowedReaches(a, k - 1);
      if k <= 3 { OpeningSteps(a, k - 1); }
      else if k <= 5 { WritingSteps(a, k - 1); }
      else if k <= 7 { PublishingSteps(a, k - 1); }
      else if k <= 9 { SecondPutSteps(a, k - 1); }
      else { LossStep(a); }
      assert Followed(a)[..k][..k - 1] == Followed(a)[..k - 1];
    }
  }

  /**
   * A put that does not sync returns; a put of the same bytes that syncs finds them and
   * returns without syncing anything; and a loss of power then empties the file of both.
   */
  lemma SyncedPutMayBeLost(a: Address)
    requires a.hash.content != []
    ensures var s := Run(EMPTY, Followed(a));
            && 0 in s.writers && s.writers[0] == FirstWriter(a, Returned)
            && 1 in s.writers && s.writers[1] == SecondWriter(a, Returned) && s.writers[1].sync
            && Get(s, a, |a.hash.content|) == None
  {
    FollowedReaches(a, 10);
    assert Followed(a)[..10] == Followed(a);
  }

  /** A put that does not sync returns, and a loss of power then empties its file. */
  lemma UnsyncedPutMayBeLost(a: Address)
    requires a.hash.content != []
    ensures var s := Step(Run(EMPTY, LonePut(a, false)), PowerLoss(map[], map[]));
            0 in s.writers && s.writers[0] == FirstWriter(a, Returned) && Get(s, a, |a.hash.content|) == None
  {
    FollowedReaches(a, 7);
    assert Followed(a)[..7] == LonePut(a, false);
    assert a.hash.content[..0] == [];
  }

  /** The puts that a run begins for the address are of the classes given; those for other addresses, of any. */
  predicate PutsAt(events: seq<Event>, a: Address, policy: Policy, classes: set<Durability>) {
    forall i :: 0 <= i < |events| && events[i].Begin? && AddressOf(events[i].bytes, events[i].extension) == a ==>
      exists d :: d in classes && events[i].sync == ShouldFsync(policy, d)
  }

  /** Every put for the address that returned, or every one of them that syncs, can be read back whole. */
  ghost predicate ReadableAt(s: Sys, a: Address, synced: bool) {
    forall id :: id in s.writers && s.writers[id].stage.Returned? && s.writers[id].name.target == a
                 && (synced ==> s.writers[id].sync) ==>
      Get(s, a, |s.writers[id].bytes|) == Some(s.writers[id].bytes)
  }

  lemma IntactIsReadable(s: Sys, a: Address)
    requires InvariantAt(s, a)
    ensures ReadableAt(s, a, false) && ReadableAt(s, a, true)
  {
    forall id | id in s.writers && s.writers[id].stage.Returned? && s.writers[id].name.target == a
      ensures Get(s, a, |s.writers[id].bytes|) == Some(s.writers[id].bytes)
    {
      assert StagedAsItSays(s, s.writers[id]);
    }
  }

  lemma FreshStore(start: Sys, a: Address)
    requires Initial(start)
    ensures NamesDiffer(start) && InvariantAt(start, a) && DurableAt(start, a)
  {
  }

  lemma SyncedPutsSurvive(start: Sys, events: seq<Event>, a: Address, policy: Policy, classes: set<Durability>)
    requires Initial(start) && PutsAt(events, a, policy, classes) && forall d :: d in classes ==> ShouldFsync(policy, d)
    ensures InvariantAt(Run(start, events), a)
  {
    hide NamesDiffer, InvariantAt, DurableAt, Run;
    FreshStore(start, a);
    forall i | 0 <= i < |events| ensures CoveredAt(events[i], a, true) {
      if events[i].Begin? && AddressOf(events[i].bytes, events[i].extension) == a {
        var d :| d in classes && events[i].sync == ShouldFsync(policy, d);
      }
    }
    RunKeepsAt(start, events, a, true);
  }

  /**
   * For one address, whatever is put elsewhere, and bytes that are not empty, as no
   * canonical text is: over all runs with losses of power, every returned put for it
   * can be read back if and only if every class of its puts is one the policy syncs.
   */
  lemma SurvivesPowerLossIffSynced(a: Address, policy: Policy, classes: set<Durability>)
    requires a.hash.content != []
    ensures (forall d :: d in classes ==> ShouldFsync(policy, d)) <==>
            forall start, events {:trigger Run(start, events)} ::
              Initial(start) && PutsAt(events, a, policy, classes) ==> ReadableAt(Run(start, events), a, false)
  {
    hide Run, InvariantAt, PutsAt;
    if forall d :: d in classes ==> ShouldFsync(policy, d) {
      forall start, events | Initial(start) && PutsAt(events, a, policy, classes)
        ensures ReadableAt(Run(start, events), a, false)
      {
        SyncedPutsSurvive(start, events, a, policy, classes);
        IntactIsReadable(Run(start, events), a);
      }
    } else {
      var d :| d in classes && !ShouldFsync(policy, d);
      var events := LonePut(a, false) + [PowerLoss(map[], map[])];
      UnsyncedPutMayBeLost(a);
      RunAppend(EMPTY, LonePut(a, false), PowerLoss(map[], map[]));
      assert PutsAt(events, a, policy, classes) by { LoneIsOf(a, policy, classes, d); }
      assert Run(EMPTY, events).writers[0].bytes == a.hash.content;
      assert !ReadableAt(Run(EMPTY, events), a, false);
    }
  }

  lemma LoneIsOf(a: Address, policy: Policy, classes: set<Durability>, d: Durability)
    requires d in classes && !ShouldFsync(policy, d)
    ensures PutsAt(LonePut(a, false) + [PowerLoss(map[], map[])], a, policy, classes)
  {
  }

  lemma FollowedIsOf(a: Address, policy: Policy, classes: set<Durability>, d: Durability, e: Durability)
    requires d in classes && !ShouldFsync(policy, d) && e in classes && ShouldFsync(policy, e)
    ensures PutsAt(Followed(a), a, policy, classes)
  {
  }

  lemma RunAppend(s: Sys, events: seq<Event>, e: Event)
    ensures Run(s, events + [e]) == Step(Run(s, events), e)
  {
    assert (events + [e])[..|events|] == events;
  }

  /** Which policies and classes that makes: all under `Always`, expensive ones alone under `ExpensiveOnly`. */
  lemma SurvivesPowerLossUnder(a: Address, policy: Policy, classes: set<Durability>)
    requires a.hash.content != []
    ensures policy == Always || classes == {} || (policy == ExpensiveOnly && Cheap !in classes) <==>
            forall start, events {:trigger Run(start, events)} ::
              Initial(start) && PutsAt(events, a, policy, classes) ==> ReadableAt(Run(start, events), a, false)
  {
    hide Run, Initial, PutsAt, ReadableAt;
    SurvivesPowerLossIffSynced(a, policy, classes);
    if classes != {} && forall d :: d in classes ==> ShouldFsync(policy, d) {
      var d :| d in classes;
      assert ShouldFsync(policy, d);
    }
    assert Cheap in classes ==> ((forall d :: d in classes ==> ShouldFsync(policy, d)) ==> ShouldFsync(policy, Cheap));
  }

  /** No put for the address syncs, so none that does returned. */
  lemma {:induction false} NoneSyncs(start: Sys, events: seq<Event>, a: Address)
    requires Initial(start)
    requires forall i ::
               0 <= i < |events| && events[i].Begin? && AddressOf(events[i].bytes, events[i].extension) == a ==>
               !events[i].sync
    ensures forall id :: id in Run(start, events).writers && Run(start, events).writers[id].name.target == a ==>
              !Run(start, events).writers[id].sync
  {
    hide Step;
    if events != [] {
      NoneSyncs(start, events[..|events| - 1], a);
      StepSyncsNone(Run(start, events[..|events| - 1]), events[|events| - 1], a);
    }
  }

  lemma StepSyncsNone(s: Sys, e: Event, a: Address)
    requires forall id :: id in s.writers && s.writers[id].name.target == a ==> !s.writers[id].sync
    requires e.Begin? && AddressOf(e.bytes, e.extension) == a ==> !e.sync
    ensures forall id :: id in Step(s, e).writers && Step(s, e).writers[id].name.target == a ==>
              !Step(s, e).writers[id].sync
  {
    hide AdvanceWriter;
    if e.Advance? && e.id in s.writers {
      AdvanceMovesOnlyItself(s, e.id, e.fails, e.written);
      WritersStaySynced(s, e.id, e.fails, e.written);
    }
  }

  /** The puts for an address that sync keep their promise over all runs exactly when none of its classes does not. */
  lemma SyncedSurviveIffNotMixed(a: Address, policy: Policy, classes: set<Durability>)
    requires a.hash.content != []
    ensures (forall d, e :: d in classes && e in classes ==> ShouldFsync(policy, d) == ShouldFsync(policy, e)) <==>
            forall start, events {:trigger Run(start, events)} ::
              Initial(start) && PutsAt(events, a, policy, classes) ==> ReadableAt(Run(start, events), a, true)
  {
    hide Run, InvariantAt, Initial, Get;
    if d, e :| d in classes && e in classes && ShouldFsync(policy, d) && !ShouldFsync(policy, e) {
      SyncedPutMayBeLost(a);
      FollowedIsOf(a, policy, classes, e, d);
      assert Initial(EMPTY) by { EmptyIsInitial(); }
      assert Run(EMPTY, Followed(a)).writers[1].bytes == a.hash.content;
      assert !ReadableAt(Run(EMPTY, Followed(a)), a, true);
    } else {
      forall start, events | Initial(start) && PutsAt(events, a, policy, classes)
        ensures ReadableAt(Run(start, events), a, true)
      {
        if d :| d in classes && ShouldFsync(policy, d) {
          SyncedPutsSurvive(start, events, a, policy, classes);
          IntactIsReadable(Run(start, events), a);
        } else {
          NoneSyncs(start, events, a);
        }
      }
    }
  }

  lemma EmptyIsInitial()
    ensures Initial(EMPTY)
  {
  }
}
