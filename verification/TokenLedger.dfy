/** The durable token budget of a run: reservations charged at their estimate until they settle. */
module TokenLedger {
  import opened Options
  import opened Text
  import opened TokenUsage

  datatype Field = InputTokens | OutputTokens | CacheReadTokens | CacheWriteTokens

  type FieldOrder = order: seq<Field>
    | |order| == 4 && forall i, j :: 0 <= i < j < |order| ==> order[i] != order[j] witness SORTED

  /** The order the fields of a stored usage have, which is by name. */
  const SORTED: seq<Field> := [CacheReadTokens, CacheWriteTokens, InputTokens, OutputTokens]

  /** A usage as it was reported. Its JSON text depends on the order of its fields. */
  datatype Report = Report(usage: Usage, order: FieldOrder)

  /** `id` is the number in `reservation-<number>`; `released` is the rule that proved nothing was consumed. */
  datatype Reservation = Reservation(id: nat, activityId: Units, estimated: nat, usage: Option<Report>,
      released: Option<Units>)

  /** What storing a ledger makes of its texts: each is redacted by the name of its field, and put in NFC. */
  datatype Storage = Storage(activity: Units -> Units, rule: Units -> Units)

  datatype Ledger = Ledger(maximumTokens: nat, reservations: seq<Reservation>)

  /** What the backend's `save` comes to: an error may arrive before or after the commit. */
  datatype Save = Saved | FailedBefore | FailedAfter

  datatype Error = InvalidActivity | InvalidReservation | InvalidRule | InvalidState | UnknownReservation
                 | AlreadyReleased | AlreadyRecorded | SaveFailed

  datatype Reply = Admitted(id: nat) | Denied | Done | Failed(error: Error)

  /** The backend's ledger, the one in memory, and the limit this process runs with. */
  datatype World = World(disk: Option<Ledger>, memory: Option<Ledger>, maximum: nat)

  datatype Event =
    | Reserve(activityId: Units, estimate: int, save: Save)
    | Record(activityId: Units, report: Report, id: nat, save: Save)
    | Release(activityId: Units, id: nat, rule: Units, save: Save)
    | Restart(maximum: nat)

  // ----- Charges

  function UsageOf(r: Reservation): Option<Usage> {
    if r.usage.Some? then Some(r.usage.value.usage) else None
  }

  function Charge(r: Reservation): nat {
    if r.released.Some? then 0 else ChargeFor(r.estimated, UsageOf(r))
  }

  function Total(reservations: seq<Reservation>): nat {
    if reservations == [] then 0
    else Total(reservations[..|reservations| - 1]) + Charge(reservations[|reservations| - 1])
  }

  /** The part of the charges that was admitted: no reservation counts for more than its estimate. */
  function AdmittedTokens(reservations: seq<Reservation>): nat {
    if reservations == [] then 0
    else
      var last := reservations[|reservations| - 1];
      AdmittedTokens(reservations[..|reservations| - 1]) + Min(Charge(last), last.estimated)
  }

  /** By how much measured usage went over the estimates. */
  function Overruns(reservations: seq<Reservation>): nat {
    if reservations == [] then 0
    else
      var last := reservations[|reservations| - 1];
      Overruns(reservations[..|reservations| - 1])
          + if Charge(last) > last.estimated then Charge(last) - last.estimated else 0
  }

  // ----- The operations

  /** `validateState`: dense IDs, positive estimates, and a released reservation holds no usage. */
  predicate ValidState(ledger: Ledger, maximum: nat) {
    && ledger.maximumTokens <= maximum
    && forall i :: 0 <= i < |ledger.reservations| ==> ValidReservation(ledger.reservations[i], i)
  }

  predicate ValidReservation(r: Reservation, index: nat) {
    && r.id == index + 1 && !Blank(r.activityId) && r.estimated >= 1
    && (r.released.Some? ==> !Blank(r.released.value) && r.usage.None?)
  }

  /** `load`: the ledger in memory, else the stored one under this process's limit, else an empty one. */
  function Load(w: World): Option<Ledger> {
    if w.memory.Some? then w.memory
    else if w.disk.None? then Some(Ledger(w.maximum, []))
    else if ValidState(w.disk.value, w.maximum) then Some(w.disk.value.(maximumTokens := w.maximum))
    else None
  }

  function Loaded(w: World): World {
    if w.memory.None? && w.disk.Some? then w.(memory := Load(w)) else w
  }

  function Stored(r: Reservation, storage: Storage): Reservation {
    r.(activityId := storage.activity(r.activityId),
       usage := if r.usage.Some? then Some(r.usage.value.(order := SORTED)) else None,
       released := if r.released.Some? then Some(storage.rule(r.released.value)) else None)
  }

  /** The ledger as it is read back. */
  function StoredLedger(ledger: Ledger, storage: Storage): Ledger {
    ledger.(reservations := StoredAll(ledger.reservations, storage))
  }

  function StoredAll(reservations: seq<Reservation>, storage: Storage): (stored: seq<Reservation>)
    ensures |stored| == |reservations|
    ensures forall i :: 0 <= i < |reservations| ==> stored[i] == Stored(reservations[i], storage)
  {
    seq(|reservations|, i requires 0 <= i < |reservations| => Stored(reservations[i], storage))
  }

  /** `commit`: the backend gets the ledger, and memory keeps it as it is. */
  function Commit(w: World, ledger: Ledger, save: Save, reply: Reply, storage: Storage): (World, Reply) {
    var kept := Some(StoredLedger(ledger, storage));
    match save
    case Saved => (w.(disk := kept, memory := Some(ledger)), reply)
    case FailedBefore => (w, Failed(SaveFailed))
    case FailedAfter => (w.(disk := kept), Failed(SaveFailed))
  }

  function Find(reservations: seq<Reservation>, id: nat): Option<nat> {
    if reservations == [] then None
    else if Find(reservations[..|reservations| - 1], id).Some? then Find(reservations[..|reservations| - 1], id)
    else if reservations[|reservations| - 1].id == id then Some(|reservations| - 1)
    else None
  }

  /** What an operation does with the loaded ledger: reject the request
      before loading, answer without a write, or write a new ledger. */
  datatype Intent = Reject(error: Error) | Answer(reply: Reply) | Write(ledger: Ledger, told: Reply)

  function ReserveIntent(loaded: Option<Ledger>, maximum: nat, activityId: Units, estimate: int): Intent {
    if Blank(activityId) then Reject(InvalidActivity)
    else if estimate < 1 then Reject(InvalidReservation)
    else if loaded.None? then Reject(InvalidState)
    else
      var ledger := loaded.value;
      if estimate > maximum - Total(ledger.reservations) then Answer(Denied)
      else
        var id := |ledger.reservations| + 1;
        Write(ledger.(reservations := ledger.reservations + [Reservation(id, activityId, estimate, None, None)]),
            Admitted(id))
  }

  /** The reservation an operation settles: its ID and its activity must both match. */
  function Owned(ledger: Ledger, activityId: Units, id: nat): Option<nat> {
    var at := Find(ledger.reservations, id);
    if at.Some? && at.value < |ledger.reservations| && ledger.reservations[at.value].activityId == activityId then at
    else None
  }

  function RecordIntent(loaded: Option<Ledger>, activityId: Units, report: Report, id: nat): Intent {
    if loaded.None? then Reject(InvalidState)
    else
      var ledger := loaded.value;
      var at := Owned(ledger, activityId, id);
      if at.None? then Answer(Failed(UnknownReservation))
      else
        var r := ledger.reservations[at.value];
        if r.released.Some? then Answer(Failed(AlreadyReleased))
        else if r.usage.Some? then Answer(if r.usage.value == report then Done else Failed(AlreadyRecorded))
        else Write(ledger.(reservations := ledger.reservations[at.value := r.(usage := Some(report))]), Done)
  }

  function ReleaseIntent(loaded: Option<Ledger>, activityId: Units, id: nat, rule: Units): Intent {
    if Blank(rule) then Reject(InvalidRule)
    else if loaded.None? then Reject(InvalidState)
    else
      var ledger := loaded.value;
      var at := Owned(ledger, activityId, id);
      if at.None? then Answer(Failed(UnknownReservation))
      else
        var r := ledger.reservations[at.value];
        if r.usage.Some? then Answer(Failed(AlreadyRecorded))
        else if r.released.Some? then Answer(if r.released.value == rule then Done else Failed(AlreadyReleased))
        else Write(ledger.(reservations := ledger.reservations[at.value := r.(released := Some(rule))]), Done)
  }

  function Perform(w: World, intent: Intent, save: Save, storage: Storage): (World, Reply) {
    match intent
    case Reject(error) => (w, Failed(error))
    case Answer(reply) => (Loaded(w), reply)
    case Write(ledger, told) => Commit(Loaded(w), ledger, save, told, storage)
  }

  function IntentOf(loaded: Option<Ledger>, maximum: nat, e: Event): Intent
    requires !e.Restart?
  {
    match e
    case Reserve(activityId, estimate, _) => ReserveIntent(loaded, maximum, activityId, estimate)
    case Record(activityId, report, id, _) => RecordIntent(loaded, activityId, report, id)
    case Release(activityId, id, rule, _) => ReleaseIntent(loaded, activityId, id, rule)
  }

  /** A restart forgets what is in memory and may bring another limit. */
  function Step(w: World, e: Event, storage: Storage): (World, Reply) {
    match e
    case Restart(maximum) => (World(w.disk, None, maximum), Done)
    case _ => Perform(w, IntentOf(Load(w), w.maximum, e), e.save, storage)
  }

  function Run(w: World, events: seq<Event>, storage: Storage): World {
    if events == [] then w else Step(Run(w, events[..|events| - 1], storage), events[|events| - 1], storage).0
  }

  // ----- The ledger that counts, and what every step keeps

  /** The ledger the next operation starts from, were its limit not refused. */
  function Effective(w: World): seq<Reservation> {
    if w.memory.Some? then w.memory.value.reservations else if w.disk.Some? then w.disk.value.reservations else []
  }

  predicate Settled(r: Reservation) { r.usage.Some? || r.released.Some? }

  /** `later` is `earlier`, settled or not since, once stored or not. */
  predicate Follows(earlier: Reservation, later: Reservation, storage: Storage) {
    && later.id == earlier.id && later.estimated == earlier.estimated
    && (later.activityId == earlier.activityId || later.activityId == storage.activity(earlier.activityId))
    && (Settled(earlier) ==> later == earlier || later == Stored(earlier, storage))
  }

  /** `later` keeps every reservation of `earlier`, and every settlement up to what storing it makes of it. */
  ghost predicate Extends(earlier: seq<Reservation>, later: seq<Reservation>, storage: Storage) {
    && |earlier| <= |later|
    && forall i :: 0 <= i < |earlier| ==> Follows(earlier[i], later[i], storage)
  }

  /** Storing what was stored changes nothing more, and leaves no text blank. */
  ghost predicate StoresTexts(store: Units -> Units) {
    && (forall text :: store(store(text)) == store(text))
    && (forall text :: !Blank(text) ==> !Blank(store(text)))
  }

  ghost predicate Sound(storage: Storage) { StoresTexts(storage.activity) && StoresTexts(storage.rule) }

  /** A ledger is valid and admitted no more than its limit. */
  ghost predicate WithinLimit(ledger: Ledger) {
    ValidState(ledger, ledger.maximumTokens) && AdmittedTokens(ledger.reservations) <= ledger.maximumTokens
  }

  ghost predicate Invariant(w: World, storage: Storage) {
    && (w.disk.Some? ==> WithinLimit(w.disk.value))
    && (w.memory.Some? ==> WithinLimit(w.memory.value) && w.memory.value.maximumTokens == w.maximum)
    && (w.memory.Some? ==> w.disk.Some? && Extends(w.memory.value.reservations, w.disk.value.reservations, storage))
  }

  lemma {:induction false} AdmittedAtMostTotal(reservations: seq<Reservation>)
    ensures Total(reservations) == AdmittedTokens(reservations) + Overruns(reservations)
  {
    if reservations != [] {
      AdmittedAtMostTotal(reservations[..|reservations| - 1]);
    }
  }

  /** Settling a reservation never raises the part of its charge that was admitted. */
  lemma {:induction false} SettlingAdmitsNoMore(reservations: seq<Reservation>, at: nat, settled: Reservation)
    requires at < |reservations| && !Settled(reservations[at])
    requires settled.estimated == reservations[at].estimated
    ensures AdmittedTokens(reservations[at := settled]) <= AdmittedTokens(reservations)
  {
    var n := |reservations| - 1;
    var after := reservations[at := settled];
    if at < n {
      SettlingAdmitsNoMore(reservations[..n], at, settled);
      assert after[..n] == reservations[..n][at := settled];
    } else {
      assert after[..n] == reservations[..n];
    }
  }

  lemma StoredSettles(r: Reservation, storage: Storage)
    requires Sound(storage)
    ensures Stored(Stored(r, storage), storage) == Stored(r, storage)
    ensures Charge(Stored(r, storage)) == Charge(r) && Follows(r, Stored(r, storage), storage)
    ensures forall index: nat :: ValidReservation(r, index) ==> ValidReservation(Stored(r, storage), index)
  {
    hide Blank;
  }

  lemma FollowsOn(first: Reservation, second: Reservation, third: Reservation, storage: Storage)
    requires Sound(storage) && Follows(first, second, storage) && Follows(second, third, storage)
    ensures Follows(first, third, storage)
  {
    hide Blank;
    StoredSettles(first, storage);
    assert storage.activity(storage.activity(first.activityId)) == storage.activity(first.activityId);
  }

  lemma ExtendsOn(first: seq<Reservation>, second: seq<Reservation>, third: seq<Reservation>, storage: Storage)
    requires Sound(storage) && Extends(first, second, storage) && Extends(second, third, storage)
    ensures Extends(first, third, storage)
  {
    hide Follows, Sound;
    forall i | 0 <= i < |first| ensures Follows(first[i], third[i], storage) {
      FollowsOn(first[i], second[i], third[i], storage);
    }
  }

  lemma {:induction false} StoringAdmitsTheSame(reservations: seq<Reservation>, storage: Storage)
    requires Sound(storage)
    ensures AdmittedTokens(StoredAll(reservations, storage)) == AdmittedTokens(reservations)
  {
    hide Stored, Charge, Sound;
    if reservations != [] {
      var n := |reservations| - 1;
      StoringAdmitsTheSame(reservations[..n], storage);
      StoredSettles(reservations[n], storage);
      assert StoredAll(reservations, storage)[..n] == StoredAll(reservations[..n], storage);
      assert StoredAll(reservations, storage)[n].estimated == reservations[n].estimated;
    }
  }

  /** Storing a ledger keeps it valid and within its limit, and extends it. */
  lemma StoredStaysWithinLimit(ledger: Ledger, storage: Storage)
    requires Sound(storage) && WithinLimit(ledger)
    ensures WithinLimit(StoredLedger(ledger, storage))
    ensures Extends(ledger.reservations, StoredLedger(ledger, storage).reservations, storage)
  {
    hide Stored, Charge, Sound, ValidReservation, AdmittedTokens, Follows;
    var reservations := ledger.reservations;
    StoringAdmitsTheSame(reservations, storage);
    forall i | 0 <= i < |reservations|
      ensures ValidReservation(StoredAll(reservations, storage)[i], i)
      ensures Follows(reservations[i], StoredAll(reservations, storage)[i], storage)
    {
      StoredSettles(reservations[i], storage);
    }
  }

  lemma LoadedIsWithinLimit(w: World, storage: Storage)
    requires Invariant(w, storage) && Load(w).Some?
    ensures WithinLimit(Load(w).value) && Load(w).value.maximumTokens == w.maximum
    ensures Load(w).value.reservations == Effective(w) && Effective(Loaded(w)) == Effective(w)
    ensures Invariant(Loaded(w), storage)
  {
    hide Stored;
  }

  lemma {:induction false} FindFinds(reservations: seq<Reservation>, id: nat)
    ensures var at := Find(reservations, id); at.Some? ==> at.value < |reservations| && reservations[at.value].id == id
    ensures Find(reservations, id).None? ==> forall i :: 0 <= i < |reservations| ==> reservations[i].id != id
  {
    if reservations != [] {
      FindFinds(reservations[..|reservations| - 1], id);
    }
  }

  lemma CommitKeepsInvariant(w: World, ledger: Ledger, save: Save, reply: Reply, storage: Storage)
    requires Sound(storage) && Invariant(w, storage) && WithinLimit(ledger) && ledger.maximumTokens == w.maximum
    requires Extends(Effective(w), ledger.reservations, storage)
    requires w.memory.Some? || w.disk.None?
    ensures var after := Commit(w, ledger, save, reply, storage).0;
            Invariant(after, storage) && Extends(Effective(w), Effective(after), storage)
                && (save == Saved ==> Effective(after) == ledger.reservations)
  {
    hide WithinLimit, Follows, Sound;
    StoredStaysWithinLimit(ledger, storage);
    ExtendsItself(Effective(w), storage);
    ExtendsOn(Effective(w), ledger.reservations, StoredLedger(ledger, storage).reservations, storage);
  }

  lemma ExtendsItself(reservations: seq<Reservation>, storage: Storage)
    ensures Extends(reservations, reservations, storage)
  {
  }

  lemma AppendIsWithinLimit(ledger: Ledger, activityId: Units, estimate: nat, storage: Storage)
    requires WithinLimit(ledger) && !Blank(activityId) && estimate >= 1
    requires Total(ledger.reservations) + estimate <= ledger.maximumTokens
    ensures var added := Reservation(|ledger.reservations| + 1, activityId, estimate, None, None);
            && WithinLimit(ledger.(reservations := ledger.reservations + [added]))
            && Extends(ledger.reservations, ledger.reservations + [added], storage)
  {
    hide Blank, Stored;
    var before := ledger.reservations;
    var added := Reservation(|before| + 1, activityId, estimate, None, None);
    AdmittedAtMostTotal(before);
    assert (before + [added])[..|before|] == before;
  }

  lemma {:induction false} SettledIsWithinLimit(ledger: Ledger, at: nat, settled: Reservation, storage: Storage)
    requires WithinLimit(ledger) && at < |ledger.reservations| && !Settled(ledger.reservations[at])
    requires settled.estimated == ledger.reservations[at].estimated
             && settled.activityId == ledger.reservations[at].activityId
    requires ValidReservation(settled, at)
    ensures WithinLimit(ledger.(reservations := ledger.reservations[at := settled]))
    ensures Extends(ledger.reservations, ledger.reservations[at := settled], storage)
  {
    hide Blank, Stored;
    SettlingAdmitsNoMore(ledger.reservations, at, settled);
  }

  /** IDs are dense, so the reservation of an ID stands at its number. */
  lemma OwnedIsIndex(ledger: Ledger, activityId: Units, id: nat)
    requires WithinLimit(ledger)
    ensures Owned(ledger, activityId, id) ==
            if 1 <= id <= |ledger.reservations| && ledger.reservations[id - 1].activityId == activityId
            then Some(id - 1) else None
  {
    hide Blank, AdmittedTokens;
    FindFinds(ledger.reservations, id);
  }

  /** Whatever an operation writes extends the ledger and stays within its limit. */
  lemma WritesStayWithinLimit(ledger: Ledger, e: Event, storage: Storage)
    requires WithinLimit(ledger) && !e.Restart?
    ensures var intent := IntentOf(Some(ledger), ledger.maximumTokens, e);
            intent.Write? ==> WithinLimit(intent.ledger) && intent.ledger.maximumTokens == ledger.maximumTokens
                              && Extends(ledger.reservations, intent.ledger.reservations, storage)
  {
    hide Blank, AdmittedTokens, Total, Extends;
    match e {
      case Reserve(activityId, estimate, _) =>
        if IntentOf(Some(ledger), ledger.maximumTokens, e).Write? {
          AppendIsWithinLimit(ledger, activityId, estimate, storage);
        }
      case Record(activityId, report, id, _) =>
        if IntentOf(Some(ledger), ledger.maximumTokens, e).Write? {
          OwnedIsIndex(ledger, activityId, id);
          SettledIsWithinLimit(ledger, id - 1, ledger.reservations[id - 1].(usage := Some(report)), storage);
        }
      case Release(activityId, id, rule, _) =>
        if IntentOf(Some(ledger), ledger.maximumTokens, e).Write? {
          OwnedIsIndex(ledger, activityId, id);
          SettledIsWithinLimit(ledger, id - 1, ledger.reservations[id - 1].(released := Some(rule)), storage);
        }
    }
  }

  lemma PerformKeepsInvariant(w: World, intent: Intent, save: Save, storage: Storage)
    requires Sound(storage) && Invariant(w, storage) && (!intent.Reject? ==> Load(w).Some?)
    requires intent.Write? ==> WithinLimit(intent.ledger) && intent.ledger.maximumTokens == w.maximum
                               && Extends(Effective(w), intent.ledger.reservations, storage)
    ensures var after := Perform(w, intent, save, storage).0;
            Invariant(after, storage) && Extends(Effective(w), Effective(after), storage)
  {
    hide WithinLimit, Follows, Sound, Commit;
    ExtendsItself(Effective(w), storage);
    if !intent.Reject? {
      LoadedIsWithinLimit(w, storage);
      if intent.Write? {
        CommitKeepsInvariant(Loaded(w), intent.ledger, save, intent.told, storage);
      }
    }
  }

  lemma StepKeepsInvariant(w: World, e: Event, storage: Storage)
    requires Sound(storage) && Invariant(w, storage)
    ensures Invariant(Step(w, e, storage).0, storage)
    ensures Extends(Effective(w), Effective(Step(w, e, storage).0), storage)
  {
    hide WithinLimit, Follows, Sound, Perform, ReserveIntent, RecordIntent, ReleaseIntent;
    if e.Restart? {
      RestartKeepsInvariant(w, e.maximum, storage);
    } else {
      if Load(w).Some? {
        LoadedIsWithinLimit(w, storage);
        WritesStayWithinLimit(Load(w).value, e, storage);
      } else {
        NothingLoaded(w.maximum, e);
      }
      PerformKeepsInvariant(w, IntentOf(Load(w), w.maximum, e), e.save, storage);
    }
  }

  lemma RestartKeepsInvariant(w: World, maximum: nat, storage: Storage)
    requires Invariant(w, storage)
    ensures var after := Step(w, Restart(maximum), storage).0;
            Invariant(after, storage) && Extends(Effective(w), Effective(after), storage)
  {
    hide WithinLimit, Follows;
    ExtendsItself(Effective(w), storage);
  }

  lemma NothingLoaded(maximum: nat, e: Event)
    requires !e.Restart?
    ensures IntentOf(None, maximum, e).Reject?
  {
  }

  lemma {:induction false} RunKeepsInvariant(w: World, events: seq<Event>, storage: Storage)
    requires Sound(storage) && Invariant(w, storage)
    ensures Invariant(Run(w, events, storage), storage)
    ensures Extends(Effective(w), Effective(Run(w, events, storage)), storage)
  {
    hide Invariant, Step, Follows, Sound, Effective;
    if events == [] {
      ExtendsItself(Effective(w), storage);
    } else {
      var before := Run(w, events[..|events| - 1], storage);
      RunKeepsInvariant(w, events[..|events| - 1], storage);
      StepKeepsInvariant(before, events[|events| - 1], storage);
      ExtendsOn(Effective(w), Effective(before), Effective(Run(w, events, storage)), storage);
    }
  }

  // ----- The budget's promises

  const EMPTY := World(None, None, 1)

  /** Over every run, whatever saves failed and however often it restarted, what was admitted
      keeps within the limit in force, so the charges exceed it by at most the measured overruns. */
  lemma ChargesKeepWithinTheLimit(events: seq<Event>, storage: Storage)
    requires Sound(storage)
    ensures var w := Run(EMPTY, events, storage);
            && (w.disk.Some? ==> AdmittedTokens(w.disk.value.reservations) <= w.disk.value.maximumTokens)
            && (w.disk.Some? ==>
                Total(w.disk.value.reservations) <= w.disk.value.maximumTokens + Overruns(w.disk.value.reservations))
            && (w.memory.Some? ==> AdmittedTokens(w.memory.value.reservations) <= w.maximum)
            && (w.memory.Some? ==>
                Total(w.memory.value.reservations) <= w.maximum + Overruns(w.memory.value.reservations))
  {
    hide Run, AdmittedTokens, Total, Overruns, Sound, Extends, ValidReservation;
    RunKeepsInvariant(EMPTY, events, storage);
    AdmittedAtMostTotal(Effective(Run(EMPTY, events, storage)));
    if Run(EMPTY, events, storage).disk.Some? {
      AdmittedAtMostTotal(Run(EMPTY, events, storage).disk.value.reservations);
    }
  }

  /** An admission had room for its whole estimate beside every charge so far, and took the next dense ID. */
  lemma AdmissionHadRoom(events: seq<Event>, e: Event, storage: Storage)
    requires Sound(storage) && Step(Run(EMPTY, events, storage), e, storage).1.Admitted?
    ensures var w := Run(EMPTY, events, storage);
            var (after, reply) := Step(w, e, storage);
            && e.Reserve? && Total(Effective(w)) + e.estimate <= w.maximum
            && reply.id == |Effective(w)| + 1
            && Effective(after) == Effective(w) + [Reservation(reply.id, e.activityId, e.estimate, None, None)]
  {
    hide Run, Total, AdmittedTokens, Sound, Extends, ValidReservation;
    var w := Run(EMPTY, events, storage);
    RunKeepsInvariant(EMPTY, events, storage);
    if Load(w).Some? {
      LoadedIsWithinLimit(w, storage);
    }
  }

  /** A stored ledger of any content is taken up exactly when its IDs are dense, its texts not blank, its
      estimates positive, no reservation both used and released, and its limit no higher than this process's. */
  lemma LoadsIffWellFormed(ledger: Ledger, maximum: nat)
    ensures Load(World(Some(ledger), None, maximum)).Some? <==>
            && ledger.maximumTokens <= maximum
            && forall i :: 0 <= i < |ledger.reservations| ==>
                 var r := ledger.reservations[i];
                 && r.id == i + 1 && !Blank(r.activityId) && r.estimated >= 1
                 && !(r.usage.Some? && r.released.Some?) && (r.released.Some? ==> !Blank(r.released.value))
    ensures Load(World(Some(ledger), None, maximum)).Some? ==>
              Load(World(Some(ledger), None, maximum)) == Some(ledger.(maximumTokens := maximum))
  {
    hide Blank;
  }

  /** In every run, a ledger is refused exactly when a process with a lower limit than the stored one first needs it. */
  lemma LoadsUnlessLowered(events: seq<Event>, storage: Storage)
    requires Sound(storage)
    ensures var w := Run(EMPTY, events, storage);
            Load(w).None? <==> w.memory.None? && w.disk.Some? && w.maximum < w.disk.value.maximumTokens
  {
    hide Run, AdmittedTokens, Sound, Extends, ValidReservation;
    EmptyIsGood(storage);
    RunKeepsInvariant(EMPTY, events, storage);
  }

  /**
   * In every run, a request that is in order is admitted if and only if its estimate fits in the limit
   * beside all charges so far, and denied otherwise; only a failed save keeps a caller from hearing of it.
   */
  lemma AdmittedIffRoom(events: seq<Event>, activityId: Units, estimate: int, save: Save, storage: Storage)
    requires Sound(storage) && Load(Run(EMPTY, events, storage)).Some? && !Blank(activityId) && estimate >= 1
    ensures var w := Run(EMPTY, events, storage);
            var reply := Step(w, Reserve(activityId, estimate, save), storage).1;
            var fits := Total(Effective(w)) + estimate <= w.maximum;
            && (reply == Denied <==> !fits)
            && (reply == Admitted(|Effective(w)| + 1) <==> fits && save == Saved)
            && (reply == Failed(SaveFailed) <==> fits && save != Saved)
  {
    hide Run, Total, AdmittedTokens, Sound, Extends, ValidReservation, Blank;
    var w := Run(EMPTY, events, storage);
    EmptyIsGood(storage);
    RunKeepsInvariant(EMPTY, events, storage);
    LoadedIsWithinLimit(w, storage);
  }

  /** Whether the reservation of an ID is the activity's. */
  predicate OwnedBy(reservations: seq<Reservation>, activityId: Units, id: nat) {
    1 <= id <= |reservations| && reservations[id - 1].activityId == activityId
  }

  /** In every run, a settlement is acknowledged if and only if the activity's
      reservation is open, or was settled the same way; else the reply says why not. */
  lemma SettledIffOpenOrSame(events: seq<Event>, settling: Event, storage: Storage)
    requires Sound(storage) && Load(Run(EMPTY, events, storage)).Some?
    requires settling.Record? || (settling.Release? && !Blank(settling.rule))
    ensures var w := Run(EMPTY, events, storage);
            var reply := Step(w, settling, storage).1;
            var mine := OwnedBy(Effective(w), settling.activityId, settling.id);
            && (reply == Failed(UnknownReservation) <==> !mine)
            && (mine ==>
                var r := Effective(w)[settling.id - 1];
                && (reply == Done <==>
                    || (!Settled(r) && settling.save == Saved)
                    || (settling.Record? && r.released.None? && r.usage == Some(settling.report))
                    || (settling.Release? && r.usage.None? && r.released == Some(settling.rule)))
                && (reply == Failed(SaveFailed) <==> !Settled(r) && settling.save != Saved)
                && (reply == Failed(AlreadyReleased) ==> r.released.Some?)
                && (reply == Failed(AlreadyRecorded) ==> r.usage.Some?))
  {
    hide Run, Total, AdmittedTokens, Sound, Extends, ValidState, Blank, Stored, Find;
    var w := Run(EMPTY, events, storage);
    EmptyIsGood(storage);
    RunKeepsInvariant(EMPTY, events, storage);
    LoadedIsWithinLimit(w, storage);
    OwnedIsIndex(Load(w).value, settling.activityId, settling.id);
    SettledAlone(w, storage);
  }

  /** Whatever is refused or denied leaves the backend and the ledger that counts as they were. */
  lemma RefusalsChangeNothing(events: seq<Event>, e: Event, storage: Storage)
    requires Sound(storage) && !e.Restart?
    ensures var w := Run(EMPTY, events, storage);
            var (after, reply) := Step(w, e, storage);
            reply == Denied || (reply.Failed? && reply.error != SaveFailed) ==>
            after.disk == w.disk && Effective(after) == Effective(w) && after.maximum == w.maximum
  {
    hide Run, Total, AdmittedTokens, Sound, Extends, ValidReservation, Blank, Stored, Find;
    var w := Run(EMPTY, events, storage);
    EmptyIsGood(storage);
    RunKeepsInvariant(EMPTY, events, storage);
    if Load(w).Some? {
      LoadedIsWithinLimit(w, storage);
    }
  }

  /** A settlement the caller was told of is on the ledger from then on, and settles no other reservation. */
  lemma SettlingSettles(w: World, settling: Event, storage: Storage)
    requires Sound(storage) && Invariant(w, storage)
    requires (settling.Record? || settling.Release?) && Step(w, settling, storage).1.Done?
    ensures var told := Step(w, settling, storage).0;
            && 1 <= settling.id <= |Effective(told)| == |Effective(w)|
            && IsSettledBy(Effective(told)[settling.id - 1], settling)
            && Effective(told)[settling.id - 1].estimated == Effective(w)[settling.id - 1].estimated
            && forall i :: 0 <= i < |Effective(w)| && i != settling.id - 1 ==> Effective(told)[i] == Effective(w)[i]
  {
    hide AdmittedTokens, Sound, Extends, ValidState, Blank, Stored;
    LoadedIsWithinLimit(w, storage);
    OwnedIsIndex(Load(w).value, settling.activityId, settling.id);
    SettledAlone(w, storage);
  }

  /** A reservation as the settlement leaves it. */
  predicate IsSettledBy(r: Reservation, settling: Event)
    requires settling.Record? || settling.Release?
  {
    && r.activityId == settling.activityId
    && (settling.Record? ==> r.usage == Some(settling.report) && r.released.None?)
    && (settling.Release? ==> r.released == Some(settling.rule) && r.usage.None?)
  }

  lemma SettledAlone(w: World, storage: Storage)
    requires Invariant(w, storage)
    ensures forall i :: 0 <= i < |Effective(w)| ==> Effective(w)[i].usage.None? || Effective(w)[i].released.None?
  {
    hide Blank, AdmittedTokens, Extends;
  }

  /** It is final: no later event, failed save or restart changes it but by storing it, nor changes its charge. */
  lemma SettlementIsFinal(before: seq<Event>, settling: Event, after: seq<Event>, storage: Storage)
    requires Sound(storage) && (settling.Record? || settling.Release?)
    requires Step(Run(EMPTY, before, storage), settling, storage).1.Done?
    ensures var told := Step(Run(EMPTY, before, storage), settling, storage).0;
            var later := Run(told, after, storage);
            && 1 <= settling.id <= |Effective(told)| <= |Effective(later)|
            && IsSettledBy(Effective(told)[settling.id - 1], settling)
            && (Effective(later)[settling.id - 1] == Effective(told)[settling.id - 1]
                || Effective(later)[settling.id - 1] == Stored(Effective(told)[settling.id - 1], storage))
            && Charge(Effective(later)[settling.id - 1]) == Charge(Effective(told)[settling.id - 1])
            && Invariant(later, storage)
  {
    hide Run, Step, Sound, Stored, Charge, Invariant, Effective;
    var w := Run(EMPTY, before, storage);
    EmptyIsGood(storage);
    RunKeepsInvariant(EMPTY, before, storage);
    SettlingSettles(w, settling, storage);
    StepKeepsInvariant(w, settling, storage);
    var told := Step(w, settling, storage).0;
    RunKeepsInvariant(told, after, storage);
    StoredSettles(Effective(told)[settling.id - 1], storage);
    assert Follows(Effective(told)[settling.id - 1], Effective(Run(told, after, storage))[settling.id - 1], storage);
  }

  lemma EmptyIsGood(storage: Storage)
    ensures Invariant(EMPTY, storage)
  {
  }

  lemma {:induction false} RunConcat(w: World, before: seq<Event>, after: seq<Event>, storage: Storage)
    ensures Run(w, before + after, storage) == Run(Run(w, before, storage), after, storage)
  {
    hide Step;
    if after == [] {
      assert before + after == before;
    } else {
      RunConcat(w, before, after[..|after| - 1], storage);
      assert (before + after)[..|before + after| - 1] == before + after[..|after| - 1];
    }
  }

  lemma RunOne(w: World, e: Event, storage: Storage)
    ensures Run(w, [e], storage) == Step(w, e, storage).0
  {
    assert [e][..0] == [];
  }

  /** Two admissions of one history never share an ID. */
  lemma AdmittedIdsAreUnique(before: seq<Event>, first: Event, between: seq<Event>, second: Event, storage: Storage)
    requires Sound(storage) && Step(Run(EMPTY, before, storage), first, storage).1.Admitted?
    requires Step(Run(EMPTY, before + [first] + between, storage), second, storage).1.Admitted?
    ensures Step(Run(EMPTY, before, storage), first, storage).1.id
            < Step(Run(EMPTY, before + [first] + between, storage), second, storage).1.id
  {
    hide Run, Step, Sound, Follows, Invariant, Effective;
    var w := Run(EMPTY, before, storage);
    var told := Step(w, first, storage).0;
    RunConcat(EMPTY, before, [first], storage);
    RunConcat(EMPTY, before + [first], between, storage);
    RunOne(w, first, storage);
    AdmissionHadRoom(before, first, storage);
    EmptyIsGood(storage);
    RunKeepsInvariant(EMPTY, before, storage);
    StepKeepsInvariant(w, first, storage);
    RunKeepsInvariant(told, between, storage);
    AdmissionHadRoom(before + [first] + between, second, storage);
  }

  /** Unknown usage is never charged below the estimate, a provably unconsumed
      attempt is charged nothing, and known usage is charged as measured. */
  lemma UnknownUsageKeepsItsEstimate(r: Reservation)
    ensures r.released.None? && !Known(UsageOf(r)) ==>
            var measured := if r.usage.None? then 0
                            else r.usage.value.usage.input.GetOr(0) + r.usage.value.usage.output.GetOr(0);
            && Charge(r) >= r.estimated && Charge(r) >= measured
            && (Charge(r) == r.estimated || Charge(r) == measured)
    ensures r.released.Some? ==> Charge(r) == 0
    ensures r.released.None? && Known(UsageOf(r)) ==>
            Charge(r) == r.usage.value.usage.input.value + r.usage.value.usage.output.value
  {
  }

  /** A limit lower than the stored one is refused, and nothing is admitted under it. */
  lemma LoweredLimitAdmitsNothing(w: World, maximum: nat, activityId: Units, estimate: int, save: Save,
                                  storage: Storage)
    requires w.disk.Some? && maximum < w.disk.value.maximumTokens
    ensures var restarted := Step(w, Restart(maximum), storage).0;
            var (after, reply) := Step(restarted, Reserve(activityId, estimate, save), storage);
            reply.Failed? && after == restarted
  {
  }

  // ----- What a restart forgets

  /** A settlement said again is acknowledged, whatever happened since it was. */
  ghost predicate StandsIn(before: seq<Event>, settling: Event, after: seq<Event>, again: Save, storage: Storage)
    requires settling.Record? || settling.Release?
  {
    var (told, reply) := Step(Run(EMPTY, before, storage), settling, storage);
    var later := Run(told, after, storage);
    reply.Done? && Load(later).Some? ==> Step(later, settling.(save := again), storage).1.Done?
  }

  ghost predicate KeepsReport(activityId: Units, report: Report, storage: Storage) {
    Blank(activityId) || (storage.activity(activityId) == activityId && report.order == SORTED)
  }

  ghost predicate KeepsRule(activityId: Units, rule: Units, storage: Storage) {
    Blank(activityId) || Blank(rule) || (storage.activity(activityId) == activityId && storage.rule(rule) == rule)
  }

  lemma SameSettlementStands(before: seq<Event>, settling: Event, after: seq<Event>, again: Save, storage: Storage)
    requires Sound(storage) && (settling.Record? || settling.Release?)
    requires settling.Record? ==> KeepsReport(settling.activityId, settling.report, storage)
    requires settling.Release? ==> KeepsRule(settling.activityId, settling.rule, storage)
    ensures StandsIn(before, settling, after, again, storage)
  {
    hide Run, Sound, Blank, Invariant, Effective, WithinLimit;
    var (told, reply) := Step(Run(EMPTY, before, storage), settling, storage);
    var later := Run(told, after, storage);
    if reply.Done? && Load(later).Some? {
      SettlementIsFinal(before, settling, after, storage);
      LoadedIsWithinLimit(later, storage);
      NothingBlankSettles(before, settling, storage);
      OwnedIsIndex(Load(later).value, settling.activityId, settling.id);
    }
  }

  lemma NothingBlankSettles(before: seq<Event>, settling: Event, storage: Storage)
    requires Sound(storage) && (settling.Record? || settling.Release?)
    requires Step(Run(EMPTY, before, storage), settling, storage).1.Done?
    ensures !Blank(settling.activityId) && (settling.Release? ==> !Blank(settling.rule))
  {
    hide Run, Sound, Blank, AdmittedTokens, Extends, Stored;
    var w := Run(EMPTY, before, storage);
    EmptyIsGood(storage);
    RunKeepsInvariant(EMPTY, before, storage);
    LoadedIsWithinLimit(w, storage);
    OwnedIsIndex(Load(w).value, settling.activityId, settling.id);
  }

  /** Recording the same usage again is acknowledged in every run, if and only
      if storing keeps the activity's ID and the usage lists its fields by name. */
  lemma RecordingAgainStandsIff(activityId: Units, report: Report, storage: Storage)
    requires Sound(storage)
    ensures KeepsReport(activityId, report, storage) <==>
            forall before, id: nat, save, after, again ::
              StandsIn(before, Record(activityId, report, id, save), after, again, storage)
  {
    hide StandsIn, Sound, Blank;
    if KeepsReport(activityId, report, storage) {
      forall before, id: nat, save, after, again
        ensures StandsIn(before, Record(activityId, report, id, save), after, again, storage)
      {
        SameSettlementStands(before, Record(activityId, report, id, save), after, again, storage);
      }
    } else {
      RestartForgets(activityId, Record(activityId, report, 1, Saved), storage);
    }
  }

  /** Releasing under the same rule again is acknowledged in every run, if and only if storing keeps both texts. */
  lemma ReleasingAgainStandsIff(activityId: Units, rule: Units, storage: Storage)
    requires Sound(storage)
    ensures KeepsRule(activityId, rule, storage) <==>
            forall before, id: nat, save, after, again ::
              StandsIn(before, Release(activityId, id, rule, save), after, again, storage)
  {
    hide StandsIn, Sound, Blank;
    if KeepsRule(activityId, rule, storage) {
      forall before, id: nat, save, after, again
        ensures StandsIn(before, Release(activityId, id, rule, save), after, again, storage)
      {
        SameSettlementStands(before, Release(activityId, id, rule, save), after, again, storage);
      }
    } else {
      RestartForgets(activityId, Release(activityId, 1, rule, Saved), storage);
    }
  }

  /** After a reservation, its settlement and a restart, a settlement that storing changed is refused. */
  lemma RestartForgets(activityId: Units, settling: Event, storage: Storage)
    requires Sound(storage) && (settling.Record? || settling.Release?)
    requires settling.id == 1 && settling.save == Saved && settling.activityId == activityId && !Blank(activityId)
    requires settling.Record? ==> !KeepsReport(activityId, settling.report, storage)
    requires settling.Release? ==> !KeepsRule(activityId, settling.rule, storage)
    ensures !StandsIn([Reserve(activityId, 1, Saved)], settling, [Restart(1)], Saved, storage)
  {
    hide Run, Blank;
    var reserved := OneReserved(activityId, storage);
    var settled := if settling.Record? then reserved.memory.value.reservations[0].(usage := Some(settling.report))
                   else reserved.memory.value.reservations[0].(released := Some(settling.rule));
    FindOnly(reserved.memory.value.reservations[0]);
    FindOnly(Stored(settled, storage));
    assert [reserved.memory.value.reservations[0]][0 := settled] == [settled];
    assert StoredAll([settled], storage) == [Stored(settled, storage)];
    var told := Step(reserved, settling, storage).0;
    RunOne(told, Restart(1), storage);
    StoredSettles(settled, storage);
    var later := Run(told, [Restart(1)], storage);
    assert Load(later) == Some(Ledger(1, [Stored(settled, storage)]));
  }

  lemma FindOnly(r: Reservation)
    ensures Find([r], r.id) == Some(0)
  {
    assert [r][..0] == [];
  }

  /** The world in which one token is reserved and nothing settled. */
  lemma OneReserved(activityId: Units, storage: Storage) returns (reserved: World)
    requires Sound(storage) && !Blank(activityId)
    ensures reserved == Run(EMPTY, [Reserve(activityId, 1, Saved)], storage)
    ensures Step(EMPTY, Reserve(activityId, 1, Saved), storage) == (reserved, Admitted(1))
    ensures var r := Reservation(1, activityId, 1, None, None);
            reserved == World(Some(Ledger(1, [Stored(r, storage)])), Some(Ledger(1, [r])), 1)
  {
    hide Run, Blank;
    RunOne(EMPTY, Reserve(activityId, 1, Saved), storage);
    reserved := Step(EMPTY, Reserve(activityId, 1, Saved), storage).0;
    var r := Reservation(1, activityId, 1, None, None);
    assert [] + [r] == [r];
    assert StoredAll([r], storage) == [Stored(r, storage)];
  }

  /** A settlement of an admitted reservation finds it, whatever happened since it was admitted. */
  ghost predicate KnownIn(before: seq<Event>, reserving: Event, after: seq<Event>, settling: Event, storage: Storage)
    requires reserving.Reserve? && (settling.Record? || settling.Release?)
  {
    var (told, reply) := Step(Run(EMPTY, before, storage), reserving, storage);
    reply == Admitted(settling.id) && reserving.activityId == settling.activityId ==>
    Step(Run(told, after, storage), settling, storage).1 != Failed(UnknownReservation)
  }

  /** A reservation can be settled in every run, if and only if storing keeps its activity's ID. */
  lemma ReservationStaysKnownIff(activityId: Units, storage: Storage)
    requires Sound(storage)
    ensures Blank(activityId) || storage.activity(activityId) == activityId <==>
            forall before, estimate, save, after, settling: Event |
              (settling.Record? || settling.Release?) && settling.activityId == activityId ::
              KnownIn(before, Reserve(activityId, estimate, save), after, settling, storage)
  {
    hide KnownIn, Sound, Blank;
    if Blank(activityId) || storage.activity(activityId) == activityId {
      forall before, estimate, save, after, settling: Event |
        (settling.Record? || settling.Release?) && settling.activityId == activityId
        ensures KnownIn(before, Reserve(activityId, estimate, save), after, settling, storage)
      {
        AdmittedStaysKnown(before, Reserve(activityId, estimate, save), after, settling, storage);
      }
    } else {
      RestartLosesTheReservation(activityId, storage);
    }
  }

  lemma AdmittedStaysKnown(before: seq<Event>, reserving: Event, after: seq<Event>, settling: Event, storage: Storage)
    requires Sound(storage) && reserving.Reserve? && (settling.Record? || settling.Release?)
    requires Blank(reserving.activityId) || storage.activity(reserving.activityId) == reserving.activityId
    ensures KnownIn(before, reserving, after, settling, storage)
  {
    hide Run, Sound, Blank, Invariant, Effective, WithinLimit, Stored, AdmittedTokens, Total;
    var w := Run(EMPTY, before, storage);
    var (told, reply) := Step(w, reserving, storage);
    var later := Run(told, after, storage);
    if reply == Admitted(settling.id) && reserving.activityId == settling.activityId {
      EmptyIsGood(storage);
      RunKeepsInvariant(EMPTY, before, storage);
      AdmissionHadRoom(before, reserving, storage);
      StepKeepsInvariant(w, reserving, storage);
      RunKeepsInvariant(told, after, storage);
      assert Follows(Effective(told)[settling.id - 1], Effective(later)[settling.id - 1], storage);
      if Load(later).Some? {
        LoadedIsWithinLimit(later, storage);
        OwnedIsIndex(Load(later).value, settling.activityId, settling.id);
      }
    }
  }

  lemma RestartLosesTheReservation(activityId: Units, storage: Storage)
    requires Sound(storage) && !Blank(activityId) && storage.activity(activityId) != activityId
    ensures var usage := Usage(Some(0), Some(0), None, None);
            !KnownIn([], Reserve(activityId, 1, Saved), [Restart(1)],
                Record(activityId, Report(usage, SORTED), 1, Saved), storage)
  {
    hide Blank;
    var reserved := OneReserved(activityId, storage);
    RunOne(reserved, Restart(1), storage);
    FindOnly(reserved.disk.value.reservations[0]);
  }

  // ----- The class

  class Backend {
    const storage: Storage
    var stored: Option<Ledger>

    constructor (storage: Storage)
      ensures stored == None && this.storage == storage
    {
      stored, this.storage := None, storage;
    }

    method Save(ledger: Ledger, outcome: Save) returns (ok: bool)
      modifies this
      ensures ok <==> outcome == Saved
      ensures stored == if outcome == FailedBefore then old(stored) else Some(StoredLedger(ledger, storage))
    {
      if outcome != FailedBefore {
        stored := Some(StoredLedger(ledger, storage));
      }
      ok := outcome == Saved;
    }
  }

  class DurableTokenBudget {
    const maximumTokens: nat
    const backend: Backend
    var state: Option<Ledger>

    function Now(): World
      reads this, backend
    {
      World(backend.stored, state, maximumTokens)
    }

    constructor (maximumTokens: nat, backend: Backend)
      requires maximumTokens >= 1
      ensures this.maximumTokens == maximumTokens && this.backend == backend
      ensures Now() == World(backend.stored, None, maximumTokens)
    {
      this.maximumTokens, this.backend, state := maximumTokens, backend, None;
    }

    method LoadState() returns (ledger: Option<Ledger>)
      modifies this
      ensures ledger == Load(old(Now()))
      ensures Now() == Loaded(old(Now()))
    {
      if state.Some? {
        return state;
      }
      if backend.stored.None? {
        return Some(Ledger(maximumTokens, []));
      }
      if !ValidState(backend.stored.value, maximumTokens) {
        return None;
      }
      state := Some(backend.stored.value.(maximumTokens := maximumTokens));
      return state;
    }

    method CommitState(ledger: Ledger, save: Save, reply: Reply) returns (r: Reply)
      modifies this, backend
      ensures (Now(), r) == Commit(old(Now()), ledger, save, reply, backend.storage)
    {
      var ok := backend.Save(ledger, save);
      if !ok {
        return Failed(SaveFailed);
      }
      state := Some(ledger);
      r := reply;
    }

    method ReserveTokens(activityId: Units, estimate: int, save: Save) returns (r: Reply)
      modifies this, backend
      ensures (Now(), r) == Step(old(Now()), Reserve(activityId, estimate, save), backend.storage)
    {
      if Blank(activityId) {
        return Failed(InvalidActivity);
      }
      if estimate < 1 {
        return Failed(InvalidReservation);
      }
      var ledger := LoadState();
      if ledger.None? {
        return Failed(InvalidState);
      }
      var charged := Total(ledger.value.reservations);
      if estimate > maximumTokens - charged {
        return Denied;
      }
      var id := |ledger.value.reservations| + 1;
      r := CommitState(ledger.value.(reservations := ledger.value.reservations
          + [Reservation(id, activityId, estimate, None, None)]),
                       save, Admitted(id));
    }

    method RecordActual(activityId: Units, report: Report, id: nat, save: Save) returns (r: Reply)
      modifies this, backend
      ensures (Now(), r) == Step(old(Now()), Record(activityId, report, id, save), backend.storage)
    {
      var ledger := LoadState();
      if ledger.None? {
        return Failed(InvalidState);
      }
      var reservations := ledger.value.reservations;
      var at := Find(reservations, id);
      FindFinds(reservations, id);
      if at.None? || reservations[at.value].activityId != activityId {
        return Failed(UnknownReservation);
      }
      var reservation := reservations[at.value];
      if reservation.released.Some? {
        return Failed(AlreadyReleased);
      }
      if reservation.usage.Some? {
        return if reservation.usage.value == report then Done else Failed(AlreadyRecorded);
      }
      r := CommitState(ledger.value.(reservations := reservations[at.value := reservation.(usage := Some(report))]),
          save, Done);
    }

    method ReleaseReservation(activityId: Units, id: nat, rule: Units, save: Save) returns (r: Reply)
      modifies this, backend
      ensures (Now(), r) == Step(old(Now()), Release(activityId, id, rule, save), backend.storage)
    {
      if Blank(rule) {
        return Failed(InvalidRule);
      }
      var ledger := LoadState();
      if ledger.None? {
        return Failed(InvalidState);
      }
      var reservations := ledger.value.reservations;
      var at := Find(reservations, id);
      FindFinds(reservations, id);
      if at.None? || reservations[at.value].activityId != activityId {
        return Failed(UnknownReservation);
      }
      var reservation := reservations[at.value];
      if reservation.usage.Some? {
        return Failed(AlreadyRecorded);
      }
      if reservation.released.Some? {
        return if reservation.released.value == rule then Done else Failed(AlreadyReleased);
      }
      r := CommitState(ledger.value.(reservations := reservations[at.value := reservation.(released := Some(rule))]),
          save, Done);
    }
  }
}
