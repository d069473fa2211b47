/** A task's bounded advisor: every use is journaled before its request is sent, and its allowance survives restarts. */
module Advisor {
  import opened Options
  import opened TokenUsage
  import Text

  type RequestId = Text.Units

  /**
   * What storing a ledger makes of the two texts it compares when it is read
   * back: every string is redacted by the name of its field, and put in NFC.
   */
  datatype Storage = Storage(request: RequestId -> RequestId, task: Text.Units -> Text.Units)

  /** What the fingerprint covers: task, policy and the limits drawn from them. A digest stands for its content. */
  datatype Config = Config(taskId: Text.Units, task: nat, policy: nat, maximumUses: nat, maximumTokens: nat)

  datatype State = Dispatched | Completed | Failed | Cancelled

  datatype Use = Use(ordinal: nat, requestId: RequestId, state: State, estimate: nat, usage: Option<Usage>, charge: nat)

  datatype Ledger = Ledger(config: Config, uses: seq<Use>)

  /** A request that went to the provider, and the use it was journaled as. */
  datatype Send = Send(ordinal: nat, requestId: RequestId)

  /** What a call does next: journal a new use, wait for its answer, or save how it came out. */
  datatype Phase =
    | Idle
    | Journaling(config: Config, use: Use)
    | Waiting(k: nat, replay: bool)
    | Settling(k: nat, settled: Use)

  /** The durable ledger, if one was ever saved, and every request ever sent. */
  datatype Sys = Sys(ledger: Option<Ledger>, sends: seq<Send>, phase: Phase)

  datatype Prepared = Skipped | Fits(estimate: nat)

  /** A save is all or nothing, but a caller may be told it failed when it did not. */
  datatype Saved = Acknowledged | NotStored | StoredButThrew

  /** How an invocation comes out: advice, a failure, or an error of the steps after it. */
  datatype Answer = Advice(usage: Option<Usage>) | Failure(cancelled: bool, usage: Option<Usage>) | Lost

  datatype Event =
    | Consult(config: Option<Config>, requestId: RequestId, prepared: Prepared)
    | JournalSaved(saved: Saved)
    | Answered(answer: Answer)
    | SettleSaved(saved: Saved)
    | Crash

  // ----- Limits

  datatype Routing = Routing(requested: bool, maximumUses: Option<nat>)
  datatype Policy = Policy(tierConfigured: bool, maximumUsesPerTask: nat, maximumTokensPerTask: nat)

  /** `limits`: none where the advisor is disabled. A task may lower the cap of the operator, never raise it. */
  function Limits(routing: Routing, policy: Option<Policy>): (limits: Option<(nat, nat)>)
    ensures limits.Some? ==>
            policy.Some? && 0 < limits.value.0 <= policy.value.maximumUsesPerTask
            && limits.value.1 == policy.value.maximumTokensPerTask
    ensures limits.Some? && routing.maximumUses.Some? ==> limits.value.0 <= routing.maximumUses.value
    ensures limits.Some? <==>
            routing.requested && policy.Some? && policy.value.tierConfigured && policy.value.maximumUsesPerTask > 0
            && routing.maximumUses != Some(0)
    ensures limits.Some? ==>
            limits.value.0 == policy.value.maximumUsesPerTask || Some(limits.value.0) == routing.maximumUses
  {
    if !routing.requested || policy.None? || !policy.value.tierConfigured then None
    else
      var uses := Min(routing.maximumUses.GetOr(policy.value.maximumUsesPerTask), policy.value.maximumUsesPerTask);
      if uses == 0 then None else Some((uses, policy.value.maximumTokensPerTask))
  }

  // ----- The ledger

  function Charged(uses: seq<Use>): nat {
    if uses == [] then 0 else Charged(uses[..|uses| - 1]) + uses[|uses| - 1].charge
  }

  /** The part of the charges that was estimated when it was admitted. */
  function Covered(uses: seq<Use>): nat {
    if uses == [] then 0 else Covered(uses[..|uses| - 1]) + Min(uses[|uses| - 1].charge, uses[|uses| - 1].estimate)
  }

  /** The position of a request's use; the number of uses when there is none. */
  function Find(uses: seq<Use>, requestId: RequestId): (k: nat)
    ensures k <= |uses| && (k < |uses| ==> uses[k].requestId == requestId)
    ensures forall i :: 0 <= i < k ==> uses[i].requestId != requestId
  {
    if uses == [] then 0
    else if uses[0].requestId == requestId then 0
    else 1 + Find(uses[1..], requestId)
  }

  function Settle(use: Use, state: State, usage: Option<Usage>): Use {
    use.(state := state, usage := usage, charge := ChargeFor(use.estimate, usage))
  }

  // ----- Steps

  /** The ledger a call loads: none where the configuration changed, or the task's ID did not survive being stored. */
  function Load(s: Sys, config: Config, storage: Storage): Option<Ledger> {
    if s.ledger.None? then Some(Ledger(config, []))
    else if s.ledger.value.config != config || storage.task(config.taskId) != config.taskId then None
    else s.ledger
  }

  function ConsultStep(s: Sys, config: Config, requestId: RequestId, prepared: Prepared, storage: Storage): Sys {
    var loaded := Load(s, config, storage);
    if loaded.None? then s
    else
      var uses := loaded.value.uses;
      var k := Find(uses, requestId);
      if k < |uses| then
        if uses[k].state.Failed? || uses[k].state.Cancelled? then s else s.(phase := Waiting(k, true))
      else if |uses| >= loaded.value.config.maximumUses || prepared.Skipped? then s
      else if Charged(uses) + prepared.estimate > loaded.value.config.maximumTokens then s
      else
        s.(phase := Journaling(config,
            Use(|uses| + 1, requestId, Dispatched, prepared.estimate, None, prepared.estimate)))
  }

  /** The use as the stored ledger has it. */
  function Stored(use: Use, storage: Storage): Use { use.(requestId := storage.request(use.requestId)) }

  /** The stored ledger with a new use at its end. */
  function Extended(s: Sys, config: Config, use: Use, storage: Storage): Ledger {
    Ledger(config, (if s.ledger.None? then [] else s.ledger.value.uses) + [Stored(use, storage)])
  }

  /** A use leaves `Dispatched` with the answer; a completed one is never downgraded. */
  function AnswerStep(s: Sys, k: nat, answer: Answer): Sys
    requires s.ledger.Some? && k < |s.ledger.value.uses|
  {
    var use := s.ledger.value.uses[k];
    if use.state.Completed? || answer.Lost? then s.(phase := Idle)
    else
      var state := if answer.Advice? then Completed else if answer.cancelled then Cancelled else Failed;
      s.(phase := Settling(k, Settle(use, state, answer.usage)))
  }

  /** The step of an event; an event that is not enabled changes nothing. */
  function Step(s: Sys, e: Event, storage: Storage): Sys {
    match e
    case Consult(config, requestId, prepared) =>
      if !s.phase.Idle? || config.None? || Text.Blank(requestId) then s
      else ConsultStep(s, config.value, requestId, prepared, storage)
    case JournalSaved(saved) =>
      if !s.phase.Journaling? then s
      else if saved.NotStored? then s.(phase := Idle)
      else
        var ledger := Extended(s, s.phase.config, s.phase.use, storage);
        if saved.StoredButThrew? then Sys(Some(ledger), s.sends, Idle)
        else
          Sys(Some(ledger), s.sends + [Send(s.phase.use.ordinal, s.phase.use.requestId)],
              Waiting(|ledger.uses| - 1, false))
    case Answered(answer) =>
      if !s.phase.Waiting? || s.ledger.None? || s.phase.k >= |s.ledger.value.uses| then s
      else AnswerStep(s, s.phase.k, answer)
    case SettleSaved(saved) =>
      if !s.phase.Settling? || s.ledger.None? || s.phase.k >= |s.ledger.value.uses| then s
      else if saved.NotStored? then s.(phase := Idle)
      else Sys(Some(s.ledger.value.(uses := s.ledger.value.uses[s.phase.k := s.phase.settled])), s.sends, Idle)
    case Crash => s.(phase := Idle)
  }

  function Run(s: Sys, events: seq<Event>, storage: Storage): Sys {
    if events == [] then s else Step(Run(s, events[..|events| - 1], storage), events[|events| - 1], storage)
  }

  const START := Sys(None, [], Idle)

  // ----- What every step keeps

  predicate GoodUse(use: Use) {
    && (use.state.Dispatched? ==> use.charge == use.estimate)
    && (!Known(use.usage) ==> use.charge >= use.estimate)
  }

  ghost predicate GoodUses(uses: seq<Use>) {
    forall i {:trigger uses[i]} :: 0 <= i < |uses| ==> uses[i].ordinal == i + 1 && GoodUse(uses[i])
  }

  ghost predicate GoodLedger(l: Ledger) {
    GoodUses(l.uses) && |l.uses| <= l.config.maximumUses && Covered(l.uses) <= l.config.maximumTokens
  }

  /** Every request sent is on the ledger, under its stored ID, and no use was sent twice. */
  ghost predicate SendsFit(sends: seq<Send>, uses: seq<Use>, storage: Storage) {
    && (forall i {:trigger sends[i]} :: 0 <= i < |sends| ==>
          && 1 <= sends[i].ordinal <= |uses|
          && uses[sends[i].ordinal - 1].requestId == storage.request(sends[i].requestId))
    && (forall i, j :: 0 <= i < j < |sends| ==> sends[i].ordinal < sends[j].ordinal)
  }

  function UsesOf(s: Sys): seq<Use> { if s.ledger.None? then [] else s.ledger.value.uses }

  ghost predicate PhaseFits(s: Sys) {
    match s.phase
    case Idle => true
    case Journaling(config, use) =>
      && (s.ledger.Some? ==> s.ledger.value.config == config)
      && use.ordinal == |UsesOf(s)| + 1 && use.state.Dispatched? && GoodUse(use) && use.charge == use.estimate
      && Find(UsesOf(s), use.requestId) == |UsesOf(s)| && !Text.Blank(use.requestId)
      && |UsesOf(s)| < config.maximumUses && Charged(UsesOf(s)) + use.estimate <= config.maximumTokens
    case Waiting(k, replay) => k < |UsesOf(s)| && (UsesOf(s)[k].state.Dispatched? || UsesOf(s)[k].state.Completed?)
    case Settling(k, settled) =>
      && k < |UsesOf(s)| && UsesOf(s)[k].state.Dispatched? && !settled.state.Dispatched?
      && settled == Settle(UsesOf(s)[k], settled.state, settled.usage)
  }

  /** Kept whatever the request IDs: the limits, and every send on the ledger. */
  ghost predicate Inv(s: Sys, storage: Storage) {
    && (s.ledger.Some? ==> GoodLedger(s.ledger.value))
    && SendsFit(s.sends, UsesOf(s), storage) && PhaseFits(s)
  }

  lemma ChargesAppend(uses: seq<Use>, use: Use)
    ensures Covered(uses + [use]) == Covered(uses) + Min(use.charge, use.estimate)
    ensures Charged(uses + [use]) == Charged(uses) + use.charge
  {
    assert (uses + [use])[..|uses|] == uses;
  }

  lemma {:induction false} CoveredIsCharged(uses: seq<Use>)
    ensures Covered(uses) <= Charged(uses)
  {
    if uses != [] {
      CoveredIsCharged(uses[..|uses| - 1]);
    }
  }

  lemma {:induction false} CoveredUpdate(uses: seq<Use>, k: nat, use: Use)
    requires k < |uses|
    ensures Covered(uses[k := use])
            == Covered(uses) - Min(uses[k].charge, uses[k].estimate) + Min(use.charge, use.estimate)
  {
    var n := |uses| - 1;
    if k < n {
      CoveredUpdate(uses[..n], k, use);
      assert uses[k := use][..n] == uses[..n][k := use];
    } else {
      assert uses[k := use][..n] == uses[..n];
    }
  }

  lemma NewIsGood(uses: seq<Use>, use: Use)
    requires GoodUses(uses) && use.ordinal == |uses| + 1 && GoodUse(use)
    ensures GoodUses(uses + [use])
  {
  }

  lemma ExtendKeeps(s: Sys, storage: Storage)
    requires Inv(s, storage) && s.phase.Journaling?
    ensures var next := UsesOf(s) + [Stored(s.phase.use, storage)];
            && GoodLedger(Extended(s, s.phase.config, s.phase.use, storage)) && SendsFit(s.sends, next, storage)
            && SendsFit(s.sends + [Send(s.phase.use.ordinal, s.phase.use.requestId)], next, storage)
  {
    hide Find, Covered, Charged, GoodUse, Text.Blank;
    var uses, use := UsesOf(s), Stored(s.phase.use, storage);
    EmptyIsGood(s, storage);
    StoredIsGood(s.phase.use, storage);
    NewIsGood(uses, use);
    ChargesAppend(uses, use);
    CoveredIsCharged(uses);
    assert forall i {:trigger s.sends[i]} :: 0 <= i < |s.sends| ==>
        (uses + [use])[s.sends[i].ordinal - 1] == uses[s.sends[i].ordinal - 1];
  }

  lemma StoredIsGood(use: Use, storage: Storage)
    ensures GoodUse(Stored(use, storage)) <==> GoodUse(use)
  {
  }

  lemma EmptyIsGood(s: Sys, storage: Storage)
    requires Inv(s, storage)
    ensures GoodUses(UsesOf(s))
  {
  }

  lemma SettleKeeps(s: Sys, storage: Storage)
    requires Inv(s, storage) && s.phase.Settling?
    ensures var uses := UsesOf(s)[s.phase.k := s.phase.settled];
            GoodLedger(s.ledger.value.(uses := uses)) && SendsFit(s.sends, uses, storage)
  {
    hide Covered, Charged, Find;
    CoveredUpdate(UsesOf(s), s.phase.k, s.phase.settled);
  }

  lemma ConsultKeeps(s: Sys, config: Config, requestId: RequestId, prepared: Prepared, storage: Storage)
    requires Inv(s, storage) && s.phase.Idle? && !Text.Blank(requestId)
    ensures Inv(ConsultStep(s, config, requestId, prepared, storage), storage)
  {
    hide GoodLedger, SendsFit, Charged, Text.Blank;
  }

  lemma StepKeeps(s: Sys, e: Event, storage: Storage)
    requires Inv(s, storage)
    ensures Inv(Step(s, e, storage), storage)
  {
    hide GoodLedger, SendsFit, ConsultStep, Find, Charged, Text.Blank;
    match e
    case Consult(config, requestId, prepared) =>
      if s.phase.Idle? && config.Some? && !Text.Blank(requestId) {
        ConsultKeeps(s, config.value, requestId, prepared, storage);
      }
    case JournalSaved(saved) => if s.phase.Journaling? { ExtendKeeps(s, storage); }
    case Answered(answer) =>
    case SettleSaved(saved) => if s.phase.Settling? { SettleKeeps(s, storage); }
    case Crash =>
  }

  lemma {:induction false} RunKeeps(events: seq<Event>, storage: Storage)
    ensures Inv(Run(START, events, storage), storage)
  {
    hide Inv, Step;
    if events == [] {
      StartFits(storage);
    } else {
      RunKeeps(events[..|events| - 1], storage);
      StepKeeps(Run(START, events[..|events| - 1], storage), events[|events| - 1], storage);
    }
  }

  lemma StartFits(storage: Storage)
    ensures Inv(START, storage)
  {
  }

  // ----- The allowance

  lemma {:induction false} IncreasingIsBounded(sends: seq<Send>, n: nat)
    requires forall i {:trigger sends[i]} :: 0 <= i < |sends| ==> 1 <= sends[i].ordinal <= n
    requires forall i, j :: 0 <= i < j < |sends| ==> sends[i].ordinal < sends[j].ordinal
    ensures |sends| <= n
    decreases |sends|
  {
    if sends != [] {
      var front, last := sends[..|sends| - 1], sends[|sends| - 1];
      forall i {:trigger front[i]} | 0 <= i < |front| ensures 1 <= front[i].ordinal <= last.ordinal - 1 {
        assert front[i] == sends[i];
      }
      IncreasingIsBounded(front, last.ordinal - 1);
    }
  }

  /**
   * Over any consults by any request IDs, failed saves, crashes and resumes: the requests sent
   * are at most `maximumUses`, and the charges within the estimates stay within `maximumTokens`.
   */
  lemma AllowanceHolds(events: seq<Event>, storage: Storage)
    ensures var s := Run(START, events, storage);
            && (s.sends != [] ==> s.ledger.Some?)
            && (s.ledger.Some? ==> |s.sends| <= |s.ledger.value.uses| <= s.ledger.value.config.maximumUses)
            && (s.ledger.Some? ==> Covered(s.ledger.value.uses) <= s.ledger.value.config.maximumTokens)
  {
    hide Run, PhaseFits, Covered;
    RunKeeps(events, storage);
    var s := Run(START, events, storage);
    IncreasingIsBounded(s.sends, |UsesOf(s)|);
  }

  /** A request goes out only once its use is on the durable ledger, and only if the charges so far and it fit. */
  lemma SentOnlyOnceJournaled(s: Sys, e: Event, storage: Storage)
    requires Inv(s, storage) && Step(s, e, storage).sends != s.sends
    ensures var after := Step(s, e, storage);
            && after.ledger.Some? && UsesOf(after) == UsesOf(s) + [Stored(s.phase.use, storage)]
            && after.sends == s.sends + [Send(|UsesOf(after)|, s.phase.use.requestId)]
            && s.phase.use.state.Dispatched?
            && Charged(UsesOf(s)) + s.phase.use.estimate <= after.ledger.value.config.maximumTokens
            && |UsesOf(s)| < after.ledger.value.config.maximumUses
  {
    hide GoodLedger, SendsFit, Find, Charged;
  }

  // ----- Uses only move forward

  /** The same use, as it was or settled from `Dispatched`. */
  predicate Forward(a: Use, b: Use) {
    || a == b
    || (a.state.Dispatched? && !b.state.Dispatched? && b == Settle(a, b.state, b.usage))
  }

  ghost predicate Evolves(s: Sys, t: Sys) {
    && (s.ledger.Some? ==> t.ledger.Some? && t.ledger.value.config == s.ledger.value.config)
    && |UsesOf(s)| <= |UsesOf(t)| && s.sends <= t.sends
    && forall i {:trigger UsesOf(s)[i]} {:trigger UsesOf(t)[i]} :: 0 <= i < |UsesOf(s)| ==>
        Forward(UsesOf(s)[i], UsesOf(t)[i])
  }

  lemma StepEvolves(s: Sys, e: Event, storage: Storage)
    requires Inv(s, storage)
    ensures Evolves(s, Step(s, e, storage))
  {
    hide GoodLedger, SendsFit, Find, Charged, ChargeFor, Text.Blank;
  }

  lemma EvolvesTransitive(s: Sys, t: Sys, u: Sys)
    requires Evolves(s, t) && Evolves(t, u)
    ensures Evolves(s, u)
  {
    hide ChargeFor;
    forall i {:trigger UsesOf(s)[i]} | 0 <= i < |UsesOf(s)| ensures Forward(UsesOf(s)[i], UsesOf(u)[i]) {
      assert Forward(UsesOf(s)[i], UsesOf(t)[i]) && Forward(UsesOf(t)[i], UsesOf(u)[i]);
    }
  }

  /**
   * Whatever happens later, restarts and changed policies included, a use on the ledger keeps its identity and its
   * estimate, the ledger keeps its configuration, and a use moves at most once: from dispatched to one final state.
   */
  lemma {:induction false} UsesMoveForward(before: seq<Event>, after: seq<Event>, storage: Storage)
    ensures Evolves(Run(START, before, storage), Run(START, before + after, storage))
  {
    hide Evolves, Step, Inv;
    var s := Run(START, before, storage);
    if after == [] {
      assert before + after == before;
      EvolvesReflexive(s);
    } else {
      var n := |after| - 1;
      UsesMoveForward(before, after[..n], storage);
      assert (before + after)[..|before| + n] == before + after[..n];
      var t := Run(START, before + after[..n], storage);
      RunKeeps(before + after[..n], storage);
      StepEvolves(t, after[n], storage);
      EvolvesTransitive(s, t, Run(START, before + after, storage));
    }
  }

  lemma EvolvesReflexive(s: Sys)
    ensures Evolves(s, s)
  {
  }

  /** A changed task, policy or limit is refused and changes nothing; so is a task whose ID storage changes. */
  lemma ChangedConfigurationIsRefused(s: Sys, config: Config, requestId: RequestId, prepared: Prepared,
                                      storage: Storage)
    requires s.ledger.Some?
    requires s.ledger.value.config != config || storage.task(config.taskId) != config.taskId
    ensures Step(s, Consult(Some(config), requestId, prepared), storage) == s
  {
  }

  // ----- Asking again

  /** The steps of a dispatch: the answer, then the save that settles the use. */
  function DispatchSteps(s: Sys, answer: Answer, settle: Saved, storage: Storage): Sys {
    Step(Step(s, Answered(answer), storage), SettleSaved(settle), storage)
  }

  lemma NothingWaiting(s: Sys, answer: Answer, settle: Saved, storage: Storage)
    requires s.phase.Idle?
    ensures DispatchSteps(s, answer, settle, storage) == s
  {
  }

  /** What a consult that is let run to its end leaves. */
  function Asked(s: Sys, consult: Event, journal: Saved, answer: Answer, settle: Saved, storage: Storage): Sys {
    DispatchSteps(Step(Step(s, consult, storage), JournalSaved(journal), storage), answer, settle, storage)
  }

  /** Asking a question that is on the ledger sends nothing and, unless it was still open, changes nothing. */
  lemma RecordedSendsNothing(s: Sys, consult: Event, journal: Saved, answer: Answer, settle: Saved, storage: Storage)
    requires Inv(s, storage) && s.phase.Idle? && consult.Consult? && Find(UsesOf(s), consult.requestId) < |UsesOf(s)|
    ensures var done := Asked(s, consult, journal, answer, settle, storage);
            && done.sends == s.sends && |UsesOf(done)| == |UsesOf(s)|
            && (!UsesOf(s)[Find(UsesOf(s), consult.requestId)].state.Dispatched? ==> done == s)
  {
    hide GoodLedger, SendsFit, Charged, ChargeFor, Text.Blank;
  }

  /** The ledger a call would extend takes the configuration. */
  predicate Accepts(s: Sys, config: Config, storage: Storage) {
    s.ledger.None? || (s.ledger.value.config == config && storage.task(config.taskId) == config.taskId)
  }

  /** A question that is in order. */
  predicate Admissible(s: Sys, consult: Event, storage: Storage) {
    && consult.Consult? && consult.config.Some? && !Text.Blank(consult.requestId)
    && Accepts(s, consult.config.value, storage)
  }

  /** It is not on the ledger. */
  predicate IsNew(s: Sys, requestId: RequestId) {
    forall i :: 0 <= i < |UsesOf(s)| ==> UsesOf(s)[i].requestId != requestId
  }

  /** Whether a question is new, and within what its task is allowed. */
  predicate MaySend(s: Sys, consult: Event, storage: Storage) {
    && Admissible(s, consult, storage) && IsNew(s, consult.requestId)
    && |UsesOf(s)| < consult.config.value.maximumUses && consult.prepared.Fits?
    && Charged(UsesOf(s)) + consult.prepared.estimate <= consult.config.value.maximumTokens
  }

  /** The use as the answer settles it: what it came to, the usage measured, and the charge for that. */
  predicate SettledBy(was: Use, now: Use, answer: Answer)
    requires !answer.Lost?
  {
    && now.ordinal == was.ordinal && now.requestId == was.requestId && now.estimate == was.estimate
    && (now.state.Completed? <==> answer.Advice?)
    && (now.state.Cancelled? <==> answer.Failure? && answer.cancelled)
    && (now.state.Failed? <==> answer.Failure? && !answer.cancelled)
    && now.usage == answer.usage && now.charge == ChargeFor(was.estimate, answer.usage)
  }

  /**
   * A question is sent if and only if it is new, within the limits on uses and tokens, and its use was stored. Then its
   * use is the ledger's last, with all before it as they were, and is settled as the answer says if that is stored.
   */
  lemma SentIffAllowed(s: Sys, consult: Event, journal: Saved, answer: Answer, settle: Saved, storage: Storage)
    requires Inv(s, storage) && s.phase.Idle? && consult.Consult?
    requires consult.config.Some? ==> consult.config.value.maximumUses > 0
    ensures var done := Asked(s, consult, journal, answer, settle, storage);
            var n := |UsesOf(s)|;
            && done.sends == s.sends + (if MaySend(s, consult, storage) && journal.Acknowledged?
                                        then [Send(n + 1, consult.requestId)] else [])
            && (MaySend(s, consult, storage) && !journal.NotStored? ==>
                && |UsesOf(done)| == n + 1 && UsesOf(done)[..n] == UsesOf(s)
                && done.ledger.value.config == consult.config.value
                && var estimate := consult.prepared.estimate;
                   var was := Use(n + 1, storage.request(consult.requestId), Dispatched, estimate, None, estimate);
                   if journal.Acknowledged? && !answer.Lost? && !settle.NotStored?
                   then SettledBy(was, UsesOf(done)[n], answer) else UsesOf(done)[n] == was)
  {
    hide Step, DispatchSteps, SettledBy, MaySend, Inv;
    var n := |UsesOf(s)|;
    JournaledIffAllowed(s, consult, storage);
    var asked := Step(s, consult, storage);
    if !MaySend(s, consult, storage) {
      AskedAnew(s, consult, journal, answer, settle, storage);
    } else {
      JournaledIsLast(asked, asked.phase.config, asked.phase.use, journal, storage);
      var sent := Step(asked, JournalSaved(journal), storage);
      if journal.Acknowledged? {
        WaitingIsSettled(sent, n, false, answer, settle, storage);
      } else {
        NothingWaiting(sent, answer, settle, storage);
      }
    }
  }

  lemma JournaledIffAllowed(s: Sys, consult: Event, storage: Storage)
    requires Inv(s, storage) && s.phase.Idle? && consult.Consult?
    ensures Step(s, consult, storage).phase.Journaling? <==> MaySend(s, consult, storage)
    ensures MaySend(s, consult, storage) ==>
              Step(s, consult, storage)
              == s.(phase := Journaling(consult.config.value,
                                        Use(|UsesOf(s)| + 1, consult.requestId, Dispatched, consult.prepared.estimate,
                                            None, consult.prepared.estimate)))
  {
    hide GoodLedger, SendsFit, Charged, ChargeFor, Text.Blank;
  }

  /** A new use is stored or not, and its request sent once it is known to be. */
  function Journaled(s: Sys, config: Config, use: Use, journal: Saved, storage: Storage): Sys {
    if journal.NotStored? then s.(phase := Idle)
    else Sys(Some(Ledger(config, UsesOf(s) + [Stored(use, storage)])),
             s.sends + (if journal.Acknowledged? then [Send(use.ordinal, use.requestId)] else []),
             if journal.Acknowledged? then Waiting(|UsesOf(s)|, false) else Idle)
  }

  /** The steps of a consult up to its dispatch. */
  lemma ConsultBegins(s: Sys, consult: Event, journal: Saved, storage: Storage)
    requires s.phase.Idle? && consult.Consult?
    ensures var begun := Step(Step(s, consult, storage), JournalSaved(journal), storage);
            var k := Find(UsesOf(s), consult.requestId);
            if MaySend(s, consult, storage) then
              var use := Use(|UsesOf(s)| + 1, consult.requestId, Dispatched, consult.prepared.estimate, None,
                             consult.prepared.estimate);
              begun == Journaled(s, consult.config.value, use, journal, storage)
            else if Admissible(s, consult, storage) && k < |UsesOf(s)|
                    && !UsesOf(s)[k].state.Failed? && !UsesOf(s)[k].state.Cancelled? then
              begun == s.(phase := Waiting(k, true))
            else begun == s
  {
    hide Charged, Text.Blank;
    assert s.sends + [] == s.sends;
  }

  lemma JournaledIsLast(s: Sys, config: Config, use: Use, journal: Saved, storage: Storage)
    requires s.phase == Journaling(config, use)
    ensures var sent := Step(s, JournalSaved(journal), storage);
            && sent.sends == s.sends + (if journal.Acknowledged? then [Send(use.ordinal, use.requestId)] else [])
            && (journal.NotStored? ==> sent == s.(phase := Idle))
            && (!journal.NotStored? ==>
                sent.ledger == Some(Ledger(config, UsesOf(s) + [Stored(use, storage)])))
            && sent.phase == if journal.Acknowledged? then Waiting(|UsesOf(s)|, false) else Idle
  {
  }

  lemma WaitingIsSettled(s: Sys, k: nat, replay: bool, answer: Answer, settle: Saved, storage: Storage)
    requires s.phase == Waiting(k, replay) && s.ledger.Some? && k < |UsesOf(s)|
    ensures var done := DispatchSteps(s, answer, settle, storage);
            var was := UsesOf(s)[k];
            && done.sends == s.sends && done.phase.Idle? && done.ledger.Some?
            && done.ledger.value.config == s.ledger.value.config && |UsesOf(done)| == |UsesOf(s)|
            && (forall i :: 0 <= i < |UsesOf(s)| && i != k ==> UsesOf(done)[i] == UsesOf(s)[i])
            && if !was.state.Completed? && !answer.Lost? && !settle.NotStored?
               then SettledBy(was, UsesOf(done)[k], answer) else UsesOf(done)[k] == was
  {
    hide ChargeFor;
  }

  /** A question that is not new, or not allowed, sends nothing. */
  lemma AskedAnew(s: Sys, consult: Event, journal: Saved, answer: Answer, settle: Saved, storage: Storage)
    requires Inv(s, storage) && s.phase.Idle? && !Step(s, consult, storage).phase.Journaling?
    ensures Asked(s, consult, journal, answer, settle, storage).sends == s.sends
  {
    hide GoodLedger, SendsFit, Charged, ChargeFor, Text.Blank;
  }

  /** An open use that is asked about again is settled as the answer says, and nothing else changes. */
  lemma OpenUseIsSettled(s: Sys, consult: Event, journal: Saved, answer: Answer, settle: Saved, storage: Storage,
      k: nat)
    requires Inv(s, storage) && s.phase.Idle? && consult.Consult? && consult.config.Some?
    requires !Text.Blank(consult.requestId) && s.ledger.Some? && Accepts(s, consult.config.value, storage)
    requires k < |UsesOf(s)| && k == Find(UsesOf(s), consult.requestId)
    ensures var done := Asked(s, consult, journal, answer, settle, storage);
            var was := UsesOf(s)[k];
            && |UsesOf(done)| == |UsesOf(s)| && done.sends == s.sends
            && (forall i :: 0 <= i < |UsesOf(s)| && i != k ==> UsesOf(done)[i] == UsesOf(s)[i])
            && if was.state.Dispatched? && !answer.Lost? && !settle.NotStored?
               then SettledBy(was, UsesOf(done)[k], answer) else done == s
  {
    hide GoodLedger, SendsFit, Charged, ChargeFor, Text.Blank;
  }

  /** Every ID that can be asked under at all reads back as it was stored. */
  ghost predicate KeptIds(ids: iset<RequestId>, storage: Storage) {
    forall id {:trigger storage.request(id)} :: id in ids && !Text.Blank(id) ==> storage.request(id) == id
  }

  ghost predicate ConsultsOnly(events: seq<Event>, ids: iset<RequestId>) {
    forall i {:trigger events[i]} :: 0 <= i < |events| && events[i].Consult? ==> events[i].requestId in ids
  }

  ghost predicate SentOnce(sends: seq<Send>) {
    forall i, j :: 0 <= i < j < |sends| ==> sends[i].requestId != sends[j].requestId
  }

  /** The question was sent. */
  ghost predicate WasSent(sends: seq<Send>, id: RequestId) { exists i :: 0 <= i < |sends| && sends[i].requestId == id }

  /** Kept while the IDs are: every question sent stands on the ledger under its own ID, and once. */
  ghost predicate Once(s: Sys) {
    && (forall i, j :: 0 <= i < j < |UsesOf(s)| ==> UsesOf(s)[i].requestId != UsesOf(s)[j].requestId)
    && (forall i {:trigger s.sends[i]} :: 0 <= i < |s.sends| && 1 <= s.sends[i].ordinal <= |UsesOf(s)| ==>
          UsesOf(s)[s.sends[i].ordinal - 1].requestId == s.sends[i].requestId)
  }

  lemma StepOnce(s: Sys, e: Event, ids: iset<RequestId>, storage: Storage)
    requires Inv(s, storage) && Once(s) && KeptIds(ids, storage) && (e.Consult? ==> e.requestId in ids)
    requires s.phase.Journaling? ==> s.phase.use.requestId in ids
    ensures Once(Step(s, e, storage))
    ensures Step(s, e, storage).phase.Journaling? ==> Step(s, e, storage).phase.use.requestId in ids
  {
    hide GoodLedger, Charged, Covered, ChargeFor, Text.Blank;
    if e.JournalSaved? && s.phase.Journaling? {
      var use := s.phase.use;
      assert storage.request(use.requestId) == use.requestId;
      assert forall i :: 0 <= i < |UsesOf(s)| ==> UsesOf(s)[i].requestId != use.requestId;
    }
  }

  lemma {:induction false} RunOnce(events: seq<Event>, ids: iset<RequestId>, storage: Storage)
    requires ConsultsOnly(events, ids) && KeptIds(ids, storage)
    ensures var s := Run(START, events, storage);
            Once(s) && (s.phase.Journaling? ==> s.phase.use.requestId in ids)
  {
    hide Inv, Step, Once;
    if events == [] {
      assert Once(START) by { StartOnce(); }
    } else {
      RunOnce(events[..|events| - 1], ids, storage);
      RunKeeps(events[..|events| - 1], storage);
      StepOnce(Run(START, events[..|events| - 1], storage), events[|events| - 1], ids, storage);
    }
  }

  lemma StartOnce()
    ensures Once(START)
  {
  }

  lemma OnceSendsOnce(s: Sys, storage: Storage)
    requires SendsFit(s.sends, UsesOf(s), storage) && Once(s)
    ensures SentOnce(s.sends)
  {
    forall i, j | 0 <= i < j < |s.sends| ensures s.sends[i].requestId != s.sends[j].requestId {
      assert s.sends[i].ordinal < s.sends[j].ordinal;
    }
  }

  lemma SentIsFound(s: Sys, id: RequestId, storage: Storage)
    requires SendsFit(s.sends, UsesOf(s), storage) && Once(s) && WasSent(s.sends, id)
    ensures Find(UsesOf(s), id) < |UsesOf(s)|
  {
    var i :| 0 <= i < |s.sends| && s.sends[i].requestId == id;
    assert UsesOf(s)[s.sends[i].ordinal - 1].requestId == id;
  }

  /** Room for two questions that cost nothing. */
  function Roomy(taskId: Text.Units): Config { Config(taskId, 0, 0, 2, 0) }

  /** One question, asked, answered and saved. */
  function AskedOnce(id: RequestId, taskId: Text.Units): seq<Event> {
    [Consult(Some(Roomy(taskId)), id, Fits(0)), JournalSaved(Acknowledged), Answered(Advice(None)),
     SettleSaved(Acknowledged)]
  }

  function AskedTwice(id: RequestId, taskId: Text.Units): seq<Event> {
    AskedOnce(id, taskId) + [Consult(Some(Roomy(taskId)), id, Fits(0)), JournalSaved(Acknowledged)]
  }

  lemma RunPrefix(s: Sys, events: seq<Event>, k: nat, storage: Storage)
    requires k < |events|
    ensures Run(s, events[..k + 1], storage) == Step(Run(s, events[..k], storage), events[k], storage)
  {
    assert events[..k + 1][..k] == events[..k];
  }

  lemma RunEmpty(s: Sys, storage: Storage)
    ensures Run(s, [], storage) == s
  {
  }

  lemma AskedOnceRuns(id: RequestId, taskId: Text.Units, storage: Storage)
    requires !Text.Blank(id)
    ensures var use := Use(1, storage.request(id), Completed, 0, None, 0);
            Run(START, AskedOnce(id, taskId), storage) == Sys(Some(Ledger(Roomy(taskId), [use])), [Send(1, id)], Idle)
  {
    hide Run, Text.Blank;
    var events := AskedOnce(id, taskId);
    assert events[..0] == [] && events[..4] == events;
    RunEmpty(START, storage);
    RunPrefix(START, events, 0, storage);
    RunPrefix(START, events, 1, storage);
    RunPrefix(START, events, 2, storage);
    RunPrefix(START, events, 3, storage);
    var use := Use(1, id, Dispatched, 0, None, 0);
    assert Run(START, events[..1], storage) == Sys(None, [], Journaling(Roomy(taskId), use)) by { NothingCharged(); }
    var stored := Stored(use, storage);
    assert Extended(Sys(None, [], Idle), Roomy(taskId), use, storage) == Ledger(Roomy(taskId), [stored]);
    assert [stored][0 := stored.(state := Completed)] == [stored.(state := Completed)];
    assert Run(START, events[..2], storage)
        == Sys(Some(Ledger(Roomy(taskId), [Stored(use, storage)])), [Send(1, id)], Waiting(0, false));
    assert Settle(Stored(use, storage), Completed, None) == Use(1, storage.request(id), Completed, 0, None, 0);
  }

  lemma NothingCharged()
    ensures Charged([]) == 0
  {
  }

  /**
   * A question whose ID storage changes: the ledger read back has it under the stored
   * ID, so asking it again, even of the same advisor, journals and sends a second use.
   */
  lemma AskedTwiceSendsTwice(id: RequestId, taskId: Text.Units, storage: Storage)
    requires !Text.Blank(id) && storage.request(id) != id && storage.task(taskId) == taskId
    ensures Run(START, AskedTwice(id, taskId), storage).sends == [Send(1, id), Send(2, id)]
  {
    hide Run, Text.Blank;
    var events := AskedTwice(id, taskId);
    assert events[..4] == AskedOnce(id, taskId) && events[..6] == events;
    AskedOnceRuns(id, taskId, storage);
    RunPrefix(START, events, 4, storage);
    RunPrefix(START, events, 5, storage);
    var s := Run(START, events[..4], storage);
    assert UsesOf(s)[..0] == [];
    assert Charged(UsesOf(s)) == 0;
    assert Find(UsesOf(s), id) == 1;
    assert Run(START, events[..5], storage).phase == Journaling(Roomy(taskId), Use(2, id, Dispatched, 0, None, 0));
  }

  /**
   * For questions asked under any set of IDs: that no question is ever sent twice holds over all runs
   * exactly when every ID of the set is blank, and so refused, or reads back from storage as it was.
   */
  lemma QuestionsAreSentOnceIff(ids: iset<RequestId>, taskId: Text.Units, storage: Storage)
    requires storage.task(taskId) == taskId
    ensures KeptIds(ids, storage) <==> forall events {:trigger Run(START, events, storage)} ::
              ConsultsOnly(events, ids) ==> SentOnce(Run(START, events, storage).sends)
  {
    hide Run, Text.Blank, PhaseFits, GoodLedger, SentOnce, ConsultsOnly;
    forall events | KeptIds(ids, storage) && ConsultsOnly(events, ids)
      ensures SentOnce(Run(START, events, storage).sends)
    {
      RunKeeps(events, storage);
      RunOnce(events, ids, storage);
      OnceSendsOnce(Run(START, events, storage), storage);
    }
    if !KeptIds(ids, storage) {
      var id :| id in ids && !Text.Blank(id) && storage.request(id) != id;
      AskedTwiceBreaks(id, taskId, ids, storage);
    }
  }

  lemma AskedTwiceBreaks(id: RequestId, taskId: Text.Units, ids: iset<RequestId>, storage: Storage)
    requires !Text.Blank(id) && storage.request(id) != id && storage.task(taskId) == taskId && id in ids
    ensures ConsultsOnly(AskedTwice(id, taskId), ids) && !SentOnce(Run(START, AskedTwice(id, taskId), storage).sends)
    ensures ConsultsOnly(AskedOnce(id, taskId), ids)
  {
    hide Run, Text.Blank;
    AskedTwiceSendsTwice(id, taskId, storage);
    var sends := Run(START, AskedTwice(id, taskId), storage).sends;
    assert sends[0].requestId == sends[1].requestId;
  }

  /** Asking what was sent before sends nothing, whatever happened since: for
      all runs under any set of IDs, if and only if storage keeps each of them. */
  lemma AskingAgainSendsNothing(ids: iset<RequestId>, taskId: Text.Units, storage: Storage)
    requires storage.task(taskId) == taskId
    ensures KeptIds(ids, storage) <==>
            forall events, consult: Event, journal, answer, settle
                {:trigger Asked(Run(START, events, storage), consult, journal, answer, settle, storage)} ::
              var s := Run(START, events, storage);
              ConsultsOnly(events, ids) && s.phase.Idle? && consult.Consult? && WasSent(s.sends, consult.requestId) ==>
              Asked(s, consult, journal, answer, settle, storage).sends == s.sends
  {
    hide Run, Text.Blank, PhaseFits, GoodLedger, WasSent, ConsultsOnly, Asked, Find;
    forall events, consult: Event, journal, answer, settle |
        KeptIds(ids, storage) && ConsultsOnly(events, ids) && Run(START, events, storage).phase.Idle?
        && consult.Consult? && WasSent(Run(START, events, storage).sends, consult.requestId)
      ensures Asked(Run(START, events, storage), consult, journal, answer, settle, storage).sends
              == Run(START, events, storage).sends
    {
      RunKeeps(events, storage);
      RunOnce(events, ids, storage);
      SentIsFound(Run(START, events, storage), consult.requestId, storage);
      RecordedSendsNothing(Run(START, events, storage), consult, journal, answer, settle, storage);
    }
    if !KeptIds(ids, storage) {
      var id :| id in ids && !Text.Blank(id) && storage.request(id) != id;
      AskedTwiceBreaks(id, taskId, ids, storage);
      AskedAgainSends(id, taskId, storage);
    }
  }

  lemma AskedAgainSends(id: RequestId, taskId: Text.Units, storage: Storage)
    requires !Text.Blank(id) && storage.request(id) != id && storage.task(taskId) == taskId
    ensures var s := Run(START, AskedOnce(id, taskId), storage);
            var consult := Event.Consult(Some(Roomy(taskId)), id, Fits(0));
            && s.phase.Idle? && WasSent(s.sends, id)
            && Asked(s, consult, Acknowledged, Advice(None), Acknowledged, storage).sends != s.sends
  {
    hide Run, Text.Blank, ConsultStep;
    var s := Run(START, AskedOnce(id, taskId), storage);
    var consult := Event.Consult(Some(Roomy(taskId)), id, Fits(0));
    AskedOnceRuns(id, taskId, storage);
    assert s.sends[0].requestId == id;
    AskedTwiceSendsTwice(id, taskId, storage);
    var events := AskedTwice(id, taskId);
    assert events[..4] == AskedOnce(id, taskId) && events[..6] == events;
    RunPrefix(START, events, 4, storage);
    RunPrefix(START, events, 5, storage);
    SettlingSendsNothing(Run(START, events, storage), Advice(None), Acknowledged, storage);
  }

  lemma SettlingSendsNothing(s: Sys, answer: Answer, settle: Saved, storage: Storage)
    ensures DispatchSteps(s, answer, settle, storage).sends == s.sends
  {
    hide Settle;
  }

  // ----- The advisor

  datatype Outcome =
    | Disabled
    | ContextLimit
    | UsesExhausted
    | TokensExhausted
    | Advised(use: Use, replayed: bool)
    | UseFailed(use: Use)
    | UseCancelled(use: Use)
    | Threw

  /** What a caller learns of a dispatched use: the advice or
      the failure only once it is settled, unless it was before. */
  function OutcomeOf(use: Use, replay: bool, answer: Answer, settle: Saved): (outcome: Outcome)
    ensures outcome.Advised? <==> answer.Advice? && (use.state.Completed? || settle.Acknowledged?)
    ensures outcome.Advised? ==>
              outcome.use.requestId == use.requestId && outcome.use.state.Completed?
              && outcome.replayed == (replay || use.state.Completed?)
    ensures outcome.UseFailed? <==>
              answer.Failure? && !answer.cancelled && !use.state.Completed? && settle.Acknowledged?
    ensures !outcome.Advised? && !outcome.UseFailed? ==> outcome.Threw?
  {
    if answer.Lost? || (answer.Failure? && use.state.Completed?) then Threw
    else if use.state.Completed? then Advised(use, true)
    else if !settle.Acknowledged? || (answer.Failure? && answer.cancelled) then Threw
    else if answer.Advice? then Advised(Settle(use, Completed, answer.usage), replay)
    else UseFailed(Settle(use, Failed, answer.usage))
  }

  /** The IDs as they are once stored, which storing them again leaves as they are. */
  ghost predicate AllStored(uses: seq<Use>, storage: Storage) {
    forall i {:trigger uses[i]} :: 0 <= i < |uses| ==> Stored(uses[i], storage) == uses[i]
  }

  ghost predicate StoresOnce(storage: Storage) {
    forall id {:trigger storage.request(id)} :: storage.request(storage.request(id)) == storage.request(id)
  }

  /** A ledger as it is read back. */
  function StoredUses(uses: seq<Use>, storage: Storage): (stored: seq<Use>)
    ensures |stored| == |uses| && forall i :: 0 <= i < |uses| ==> stored[i] == Stored(uses[i], storage)
  {
    seq(|uses|, i requires 0 <= i < |uses| => Stored(uses[i], storage))
  }

  lemma StoringAgain(uses: seq<Use>, use: Use, storage: Storage)
    requires AllStored(uses, storage) && StoresOnce(storage)
    ensures StoredUses(uses + [use], storage) == uses + [Stored(use, storage)]
    ensures AllStored(uses + [Stored(use, storage)], storage)
  {
  }

  lemma SettlingAgain(uses: seq<Use>, k: nat, settled: Use, storage: Storage)
    requires AllStored(uses, storage) && StoresOnce(storage) && k < |uses|
    requires Stored(settled, storage)
             == uses[k].(state := settled.state, usage := settled.usage, charge := settled.charge)
    requires settled.ordinal == uses[k].ordinal && settled.estimate == uses[k].estimate
    ensures StoredUses(uses[k := settled], storage) == uses[k := Stored(settled, storage)]
    ensures AllStored(uses[k := Stored(settled, storage)], storage)
  {
  }

  class TaskAdvisor {
    const storage: Storage
    var ledger: Option<Ledger>
    var sends: seq<Send>

    constructor (ledger: Option<Ledger>, sends: seq<Send>, storage: Storage)
      ensures During(Idle) == Sys(ledger, sends, Idle) && this.storage == storage
    {
      this.ledger, this.sends, this.storage := ledger, sends, storage;
    }

    /** The ledger in storage is one that was stored. */
    ghost predicate Kept()
      reads this
    {
      Inv(During(Idle), storage) && AllStored(UsesOf(During(Idle)), storage) && StoresOnce(storage)
    }

    function During(phase: Phase): Sys
      reads this
    {
      Sys(ledger, sends, phase)
    }

    /** `save`: whether the ledger is stored, and whether the caller learns it. What is stored is what is read back. */
    method Save(next: Ledger, saved: Saved) returns (ok: bool)
      modifies this`ledger
      ensures ok == saved.Acknowledged?
      ensures ledger == if saved.NotStored? then old(ledger)
                        else Some(next.(uses := StoredUses(next.uses, storage)))
    {
      if !saved.NotStored? {
        ledger := Some(next.(uses := StoredUses(next.uses, storage)));
      }
      ok := saved.Acknowledged?;
    }

    /** `dispatch` of a use on the ledger, as the caller has it: waits for the
        answer, which a replay never sends for, and settles the use with it. */
    method Dispatch(use: Use, k: nat, replay: bool, answer: Answer, settle: Saved) returns (outcome: Outcome)
      requires ledger.Some? && k < |ledger.value.uses| && Stored(use, storage) == ledger.value.uses[k]
      requires AllStored(ledger.value.uses, storage) && StoresOnce(storage)
      modifies this`ledger
      ensures During(Idle) == DispatchSteps(old(During(Waiting(k, replay))), answer, settle, storage)
      ensures ledger.Some? && AllStored(ledger.value.uses, storage) && |ledger.value.uses| == |old(ledger).value.uses|
      ensures outcome == OutcomeOf(use, replay, answer, settle)
      ensures outcome.Advised? || outcome.UseFailed? ==>
                outcome.use.requestId == use.requestId && Stored(outcome.use, storage) == ledger.value.uses[k]
      ensures outcome.Advised? || outcome.UseFailed? || outcome.Threw?
    {
      if answer.Lost? || (answer.Failure? && use.state.Completed?) {
        return Threw;
      }
      if use.state.Completed? {
        return Advised(use, true);
      }
      var state := if answer.Advice? then Completed else if answer.cancelled then Cancelled else Failed;
      var settled := Settle(use, state, answer.usage);
      SettlingAgain(ledger.value.uses, k, settled, storage);
      var ok := Save(ledger.value.(uses := ledger.value.uses[k := settled]), settle);
      if !ok || state.Cancelled? {
        return Threw;
      }
      outcome := if answer.Advice? then Advised(settled, replay) else UseFailed(settled);
    }

    /** `resume`: a failed or cancelled use is reported as it is, any other dispatched again without a second send. */
    method Resume(k: nat, answer: Answer, settle: Saved) returns (outcome: Outcome)
      requires Kept() && k < |UsesOf(During(Idle))|
      modifies this`ledger
      ensures var use := old(UsesOf(During(Idle)))[k];
              && During(Idle) == (if use.state.Failed? || use.state.Cancelled? then old(During(Idle))
                                  else DispatchSteps(old(During(Waiting(k, true))), answer, settle, storage))
              && outcome == (if use.state.Failed? then UseFailed(use)
                             else if use.state.Cancelled? then UseCancelled(use)
                             else OutcomeOf(use, true, answer, settle))
      ensures ledger.Some? && AllStored(ledger.value.uses, storage) && |ledger.value.uses| == |old(ledger).value.uses|
      ensures outcome.Advised? ==> Stored(outcome.use, storage) == ledger.value.uses[k]
    {
      hide DispatchSteps, Inv, Settle, StoresOnce;
      var use := ledger.value.uses[k];
      if use.state.Failed? {
        return UseFailed(use);
      }
      if use.state.Cancelled? {
        return UseCancelled(use);
      }
      AsStored(ledger.value.uses, k, storage);
      outcome := Dispatch(use, k, true, answer, settle);
    }

    /** The part of a consult that journals a new use and, once it is stored, sends its request. */
    method JournalAndSend(config: Config, use: Use, journal: Saved) returns (sent: bool)
      requires AllStored(UsesOf(During(Idle)), storage) && StoresOnce(storage)
      modifies this
      ensures sent == journal.Acknowledged?
      ensures During(if sent then Waiting(|UsesOf(old(During(Idle)))|, false) else Idle)
              == Journaled(old(During(Idle)), config, use, journal, storage)
      ensures AllStored(UsesOf(During(Idle)), storage)
    {
      hide StoresOnce;
      var uses := if ledger.None? then [] else ledger.value.uses;
      StoringAgain(uses, use, storage);
      sent := Save(Ledger(config, uses + [use]), journal);
      if sent {
        sends := sends + [Send(use.ordinal, use.requestId)];
      }
    }

    /**
     * `consult`. The last three arguments say how the save, the invocation and the settling
     * save come out, if they are reached. A blank request ID is rejected before anything else.
     */
    method Consult(config: Option<Config>, requestId: RequestId, prepared: Prepared, journal: Saved, answer: Answer,
        settle: Saved) returns (outcome: Outcome)
      requires Kept()
      modifies this
      ensures var consult := Event.Consult(config, requestId, prepared);
              During(Idle) == Asked(old(During(Idle)), consult, journal, answer, settle, storage)
      ensures Kept()
      ensures outcome.Disabled? <==> config.None? && !Text.Blank(requestId)
      ensures Text.Blank(requestId) ==> outcome.Threw?
      ensures var before := old(During(Idle));
              var uses := UsesOf(before);
              var isNew := Admissible(before, Event.Consult(config, requestId, prepared), storage)
                           && IsNew(before, requestId);
              && (outcome.UsesExhausted? <==> isNew && |uses| >= config.value.maximumUses)
              && (outcome.ContextLimit? <==> isNew && |uses| < config.value.maximumUses && prepared.Skipped?)
              && (outcome.TokensExhausted? <==>
                  isNew && |uses| < config.value.maximumUses && prepared.Fits?
                  && Charged(uses) + prepared.estimate > config.value.maximumTokens)
              && (MaySend(before, Event.Consult(config, requestId, prepared), storage) ==>
                  outcome == if !journal.Acknowledged? then Threw
                             else OutcomeOf(Use(|uses| + 1, requestId, Dispatched, prepared.estimate, None,
                                                prepared.estimate), false, answer, settle))
      ensures outcome.Advised? ==>
              outcome.use.requestId == requestId && outcome.use.state.Completed?
              && Stored(outcome.use, storage) in UsesOf(During(Idle))
    {
      hide DispatchSteps, Inv, Charged, Settle, AllStored, StoresOnce, Text.Blank, OutcomeOf, Step, ConsultStep;
      ghost var consult := Event.Consult(config, requestId, prepared);
      ghost var before := During(Idle);
      StepKeeps(before, consult, storage);
      StepKeeps(Step(before, consult, storage), JournalSaved(journal), storage);
      DispatchKeeps(Step(Step(before, consult, storage), JournalSaved(journal), storage), answer, settle, storage);
      NothingWaiting(During(Idle), answer, settle, storage);
      NothingStored(storage);
      ConsultBegins(before, consult, journal, storage);
      if Text.Blank(requestId) {
        return Threw;
      }
      if config.None? {
        return Disabled;
      }
      var loaded := Load(During(Idle), config.value, storage);
      if loaded.None? {
        return Threw;
      }
      var uses := loaded.value.uses;
      var k := Find(uses, requestId);
      if k < |uses| {
        outcome := Resume(k, answer, settle);
        return;
      }
      if |uses| >= loaded.value.config.maximumUses {
        return UsesExhausted;
      }
      if prepared.Skipped? {
        return ContextLimit;
      }
      if Charged(uses) + prepared.estimate > loaded.value.config.maximumTokens {
        return TokensExhausted;
      }
      var use := Use(|uses| + 1, requestId, Dispatched, prepared.estimate, None, prepared.estimate);
      var sent := JournalAndSend(config.value, use, journal);
      if !sent {
        NothingWaiting(During(Idle), answer, settle, storage);
        return Threw;
      }
      outcome := Dispatch(use, |uses|, false, answer, settle);
    }
  }

  lemma AsStored(uses: seq<Use>, k: nat, storage: Storage)
    requires AllStored(uses, storage) && k < |uses|
    ensures Stored(uses[k], storage) == uses[k]
  {
  }

  lemma NothingStored(storage: Storage)
    ensures AllStored([], storage)
  {
  }

  lemma DispatchKeeps(s: Sys, answer: Answer, settle: Saved, storage: Storage)
    requires Inv(s, storage)
    ensures Inv(DispatchSteps(s, answer, settle, storage), storage)
  {
    hide Inv, Step;
    StepKeeps(s, Answered(answer), storage);
    StepKeeps(Step(s, Answered(answer), storage), SettleSaved(settle), storage);
  }
}
