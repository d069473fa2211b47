/** One provider invocation: attempts under a budget and a scheduler lease, resends after a sleep, and how it ends. */
module Invocation {
  import opened Options

  datatype Code = Auth | InvalidRequest | MalformedResponse | RateLimit | Quota | Timeout | Cancelled | Http
      | OutputLimit

  /** `unconsumed` is the rule that proves the attempt consumed
      nothing; `leftProcesses` says processes of it still run. */
  datatype Error =
    | Transport(code: Code, retryable: bool, retryAfter: Option<int>, unconsumed: Option<string>, leftProcesses: bool)
    | TypeError
    | InvalidTimerDelay
    | Other

  datatype Suspend = Suspend(from: int, to: int)

  datatype Context = Context(maximumRetries: nat, retryTimeouts: bool, budgetReleases: bool, maximumBackoffMs: nat)

  datatype Reservation = Allowed(hasId: bool) | Denied | ReserveThrows(error: Error)

  /** How the wait before a retry ends: it passes, the caller aborts, or the timer itself fails. */
  datatype SleepEnd = Woke | Aborted | TimerFailed

  /** What the environment answers during one turn of the loop, whatever it is. */
  datatype Turn = Turn(
    abortedAtStart: bool, awakeFails: Option<Error>, abortedWhileAsleep: bool, reservation: Reservation,
    acquireFails: Option<Error>, abortedAfterAcquire: bool, sendFails: Option<Error>, recordFails: Option<Error>,
        saveFails: Option<Error>,
    suspends: seq<Suspend>, abortedAfter: bool, releaseSucceeds: bool)

  const MAXIMUM_SUSPEND_RESENDS := 3
  const MAX_TIMER_DELAY_MS := 2_147_483_647

  /** What the invocation does to the world, in order. */
  datatype Action =
    | Reserve
    | TakeLease
    | Send
    | RecordUsage
    | Fail(error: Error, slept: Option<Suspend>)
    | Free(rule: string)
    | Block(milliseconds: int)
    | ReleaseLease
    | Sleep(milliseconds: int)

  datatype Result =
    | Returned
    | CancelledBeforeDispatch
    | BudgetSuspended
    | UsageLimit
    | HostSuspended(slept: Suspend)
    | TimeLimit
    | Failed(error: Error)
    | Threw(error: Error)

  // ----- The pure rules

  /** A timeout of a stage that would rather split its request than repeat it. */
  predicate TimeLimited(error: Error, c: Context) {
    !c.retryTimeouts && error.Transport? && error.code == Timeout && error.retryable
  }

  predicate SleepExplains(error: Error) {
    match error
    case Transport(code, retryable, _, unconsumed, leftProcesses) =>
      if code == Timeout || code == MalformedResponse then retryable
      else code == Http && unconsumed.None? && !leftProcesses
    case TypeError => true
    case InvalidTimerDelay => false
    case Other => false
  }

  function Min(a: int, b: int): int { if a < b then a else b }
  function Max(a: int, b: int): int { if a < b then b else a }

  /** From the start of the first suspend to the end of the last. */
  function Span(suspends: seq<Suspend>): Option<Suspend> {
    if suspends == [] then None
    else
      var rest := Span(suspends[1..]);
      if rest.None? then Some(suspends[0])
      else Some(Suspend(Min(suspends[0].from, rest.value.from), Max(suspends[0].to, rest.value.to)))
  }

  function Pow2(n: nat): nat { if n == 0 then 1 else 2 * Pow2(n - 1) }

  /** `boundedTimerDelay`: none for a delay no timer takes. */
  function BoundedDelay(milliseconds: int): Option<int> {
    if milliseconds < 0 then None else Some(Min(MAX_TIMER_DELAY_MS, milliseconds))
  }

  function RetryDelay(c: Context, error: Error, attempt: nat): Option<int>
    requires attempt >= 1
  {
    BoundedDelay(if error.Transport? && error.retryAfter.Some? then error.retryAfter.value
                 else Min(c.maximumBackoffMs, 1_000 * Pow2(attempt - 1)))
  }

  // ----- One turn

  /** How a turn ends: the invocation ends, the call is sent again uncounted, it is retried, or it gives up. */
  datatype End = Finish(result: Result) | Resend(span: Suspend)
      | Retry(error: Error, slept: Option<Suspend>, delay: int) | GiveUp(error: Error, slept: Option<Suspend>)

  const CANCELLED := Transport(Cancelled, false, None, None, false)

  /** The scheduler block a rate-limited attempt sets before it is retried. */
  function BlockOf(c: Context, error: Error, attempt: nat, retryable: bool): seq<Action>
    requires attempt >= 1
  {
    var delay := RetryDelay(c, error, attempt);
    if retryable && delay.Some? && error.Transport? && error.code == RateLimit then [Block(delay.value)] else []
  }

  /** Whether a failed attempt that is not sent again uncounted is retried. */
  predicate Retryable(c: Context, error: Error, attempt: nat, slept: Option<Suspend>) {
    attempt <= c.maximumRetries && (slept.Some? || (error.Transport? && error.retryable && !TimeLimited(error, c)))
  }

  /** The catch and finally blocks, after `done` and the failure `error`. */
  function AfterFailure(c: Context, turn: Turn, attempt: nat, resent: nat, done: seq<Action>, error: Error,
      dispatched: bool, leased: bool): (seq<Action>, End)
    requires attempt >= 1
  {
    var slept := if dispatched && SleepExplains(error) then Span(turn.suspends) else None;
    var resend := slept.Some? && resent < MAXIMUM_SUSPEND_RESENDS && !turn.abortedAfter;
    var retryable := !resend && Retryable(c, error, attempt, slept);
    var evidence := if !dispatched then Some("not_dispatched") else if error.Transport? then error.unconsumed else None;
    var free := if evidence.Some? && turn.reservation == Allowed(true) && c.budgetReleases
        && turn.releaseSucceeds then [Free(evidence.value)] else [];
    var delay := RetryDelay(c, error, attempt);
    var block := BlockOf(c, error, attempt, retryable);
    var release := if leased then [ReleaseLease] else [];
    (done + [Fail(error, slept)] + free + block + release,
     if resend then Resend(slept.value)
     else if !retryable then GiveUp(error, slept)
     else if delay.None? then Finish(Threw(InvalidTimerDelay))
     else Retry(error, slept, delay.value))
  }

  /** The body of the loop over attempts. */
  function TurnOf(c: Context, turn: Turn, attempt: nat, resent: nat): (seq<Action>, End)
    requires attempt >= 1
  {
    if turn.abortedAtStart then ([], Finish(CancelledBeforeDispatch))
    else if turn.awakeFails.Some? then
      ([], Finish(if turn.abortedWhileAsleep then CancelledBeforeDispatch else Threw(turn.awakeFails.value)))
    else
      match turn.reservation
      case ReserveThrows(error) => ([], Finish(Threw(error)))
      case Denied => ([], Finish(BudgetSuspended))
      case Allowed(_) =>
        if turn.acquireFails.Some?
        then AfterFailure(c, turn, attempt, resent, [Reserve], turn.acquireFails.value, false, false)
        else if turn.abortedAfterAcquire
        then AfterFailure(c, turn, attempt, resent, [Reserve, TakeLease], CANCELLED, false, true)
        else if turn.sendFails.Some?
        then AfterFailure(c, turn, attempt, resent, [Reserve, TakeLease, Send], turn.sendFails.value, true, true)
        else if turn.recordFails.Some?
        then AfterFailure(c, turn, attempt, resent, [Reserve, TakeLease, Send], turn.recordFails.value, true, true)
        else if turn.saveFails.Some? then
          AfterFailure(c, turn, attempt, resent, [Reserve, TakeLease, Send, RecordUsage], turn.saveFails.value, true,
              true)
        else ([Reserve, TakeLease, Send, RecordUsage, ReleaseLease], Finish(Returned))
  }

  // ----- What a log may hold

  /** `Reserved`: an allowed reservation and no lease; `Leased`: also
      a lease; `InFlight`: also sent. `Settling` follows a failure. */
  datatype Phase = Idle | Reserved | Leased | InFlight | Settling(error: Error, dispatched: bool, leased: bool) | Broken

  /** A failure that would be the same if it were sent again: no transport says that it may pass, or a time limit. */
  predicate Final(error: Error, c: Context) {
    || !error.Transport? || !error.retryable
    || (error.code == Timeout && !c.retryTimeouts)
  }

  /** A failure that a broken connection or a stopped computer explains, and not an answer of the provider. */
  predicate Breakable(error: Error) {
    || error.TypeError?
    || (error.Transport? && error.retryable && error.code in {Timeout, MalformedResponse})
    || (error.Transport? && error.code == Http && error.unconsumed.None? && !error.leftProcesses)
  }

  /** The phase of an invocation, and whether a final failure that no sleep explains has ended its sends. */
  datatype Progress = Progress(phase: Phase, stopped: bool)

  function NextPhase(phase: Phase, action: Action): Phase {
    match action
    case Reserve => if phase == Idle || (phase.Settling? && !phase.leased) then Reserved else Broken
    case TakeLease => if phase == Reserved then Leased else Broken
    case Send => if phase == Leased then InFlight else Broken
    case RecordUsage => if phase == InFlight then InFlight else Broken
    case Fail(error, slept) =>
      // Only a sleep during the send cuts an attempt.
      (match phase
       case Reserved => if slept.None? then Settling(error, false, false) else Broken
       case Leased => if slept.None? then Settling(error, false, true) else Broken
       case InFlight => if slept.None? || Breakable(error) then Settling(error, true, true) else Broken
       case _ => Broken)
    case Free(rule) =>
      // A reservation is freed only for an attempt never sent, or one its error proves unconsumed.
      if phase.Settling? && (!phase.dispatched || (phase.error.Transport? && phase.error.unconsumed == Some(rule)))
      then phase else Broken
    case Block(_) => if phase.Settling? then phase else Broken
    case ReleaseLease => if phase == InFlight || (phase.Settling? && phase.leased) then Idle else Broken
    case Sleep(_) => if phase == Idle || (phase.Settling? && !phase.leased) then phase else Broken
  }

  function Next(p: Progress, action: Action, c: Context): Progress {
    Progress(if p.stopped && (action.Send? || action.Reserve?) then Broken else NextPhase(p.phase, action),
             p.stopped || (action.Fail? && action.slept.None? && Final(action.error, c)))
  }

  function ProgressOf(log: seq<Action>, c: Context): Progress {
    if log == [] then Progress(Idle, false)
    else Next(ProgressOf(log[..|log| - 1], c), log[|log| - 1], c)
  }

  /** No lease is held: between turns, and at the end. */
  predicate HoldsNoLease(phase: Phase) { phase == Idle || (phase.Settling? && !phase.leased) }

  function CountOf(log: seq<Action>, action: Action): nat {
    if log == [] then 0 else CountOf(log[..|log| - 1], action) + if log[|log| - 1] == action then 1 else 0
  }

  lemma {:induction false} CountConcat(a: seq<Action>, b: seq<Action>, action: Action)
    ensures CountOf(a + b, action) == CountOf(a, action) + CountOf(b, action)
  {
    if b == [] {
      assert a + b == a;
    } else {
      CountConcat(a, b[..|b| - 1], action);
      assert (a + b)[..|a + b| - 1] == a + b[..|b| - 1];
    }
  }

  /** Appending one action takes one step. */
  lemma Append(log: seq<Action>, action: Action, c: Context)
    ensures ProgressOf(log + [action], c) == Next(ProgressOf(log, c), action, c)
    ensures CountOf(log + [action], Send) == CountOf(log, Send) + if action == Send then 1 else 0
    ensures CountOf(log + [action], Reserve) == CountOf(log, Reserve) + if action == Reserve then 1 else 0
  {
    assert (log + [action])[..|log|] == log;
  }

  /** The steps of `more` from `p`. */
  function Follow(p: Progress, more: seq<Action>, c: Context): Progress
    decreases |more|
  {
    if more == [] then p else Follow(Next(p, more[0], c), more[1..], c)
  }

  lemma {:induction false} FollowIsProgress(log: seq<Action>, more: seq<Action>, c: Context)
    ensures ProgressOf(log + more, c) == Follow(ProgressOf(log, c), more, c)
    decreases |more|
  {
    if more == [] {
      assert log + more == log;
    } else {
      Append(log, more[0], c);
      FollowIsProgress(log + [more[0]], more[1..], c);
      assert log + [more[0]] + more[1..] == log + more;
    }
  }

  lemma {:induction false} FollowConcat(p: Progress, a: seq<Action>, b: seq<Action>, c: Context)
    ensures Follow(p, a + b, c) == Follow(Follow(p, a, c), b, c)
    decreases |a|
  {
    if a == [] {
      assert a + b == b;
    } else {
      FollowConcat(Next(p, a[0], c), a[1..], b, c);
      assert (a + b)[1..] == a[1..] + b;
    }
  }

  lemma FollowDone(p: Progress, c: Context)
    ensures Follow(p, [], c) == p
    ensures Follow(p, [Reserve], c) == Next(p, Reserve, c)
    ensures Follow(p, [Reserve, TakeLease], c) == Next(Next(p, Reserve, c), TakeLease, c)
    ensures Follow(p, [Reserve, TakeLease, Send], c) == Next(Next(Next(p, Reserve, c), TakeLease, c), Send, c)
    ensures Follow(p, [Reserve, TakeLease, Send, RecordUsage], c)
            == Next(Next(Next(Next(p, Reserve, c), TakeLease, c), Send, c), RecordUsage, c)
  {
    FollowOne(p, Reserve, c);
    assert [Reserve, TakeLease] == [Reserve] + [TakeLease];
    assert [Reserve, TakeLease, Send] == [Reserve, TakeLease] + [Send];
    assert [Reserve, TakeLease, Send, RecordUsage] == [Reserve, TakeLease, Send] + [RecordUsage];
    FollowConcat(p, [Reserve], [TakeLease], c);
    FollowConcat(p, [Reserve, TakeLease], [Send], c);
    FollowConcat(p, [Reserve, TakeLease, Send], [RecordUsage], c);
    FollowOne(Next(p, Reserve, c), TakeLease, c);
    FollowOne(Next(Next(p, Reserve, c), TakeLease, c), Send, c);
    FollowOne(Next(Next(Next(p, Reserve, c), TakeLease, c), Send, c), RecordUsage, c);
  }

  lemma FollowOne(p: Progress, a: Action, c: Context)
    ensures Follow(p, [a], c) == Next(p, a, c)
  {
    assert [a][1..] == [];
  }

  // ----- Every turn is accepted

  /** What has been done when a failure is caught, whether it was sent, and whether a lease is held. */
  predicate Stage(done: seq<Action>, dispatched: bool, leased: bool) {
    || (done == [Reserve] && !dispatched && !leased)
    || (done == [Reserve, TakeLease] && !dispatched && leased)
    || (done == [Reserve, TakeLease, Send] && dispatched && leased)
    || (done == [Reserve, TakeLease, Send, RecordUsage] && dispatched && leased)
  }

  /** A turn leaves no lease held, breaks no rule, and goes on only if nothing ended the sends. */
  ghost predicate Accepted(p: Progress, acts: seq<Action>, end: End, c: Context) {
    var after := Follow(p, acts, c);
    && after.phase != Broken && HoldsNoLease(after.phase)
    && (end.Resend? || end.Retry? ==> !after.stopped)
  }

  lemma FailureSettles(p: Progress, c: Context, done: seq<Action>, error: Error, slept: Option<Suspend>,
      dispatched: bool, leased: bool)
    requires !p.stopped && HoldsNoLease(p.phase) && Stage(done, dispatched, leased)
    requires slept.Some? ==> dispatched && Breakable(error)
    ensures Follow(p, done + [Fail(error, slept)], c)
            == Progress(Settling(error, dispatched, leased), slept.None? && Final(error, c))
  {
    FollowDone(p, c);
    FollowConcat(p, done, [Fail(error, slept)], c);
    FollowOne(Follow(p, done, c), Fail(error, slept), c);
  }

  /** The steps after a failure settle it. */
  lemma TailSettles(p: Progress, settling: Progress, c: Context, head: seq<Action>, free: seq<Action>,
      block: seq<Action>, release: seq<Action>)
    requires Follow(p, head, c) == settling && settling.phase.Settling?
    requires free == [] || exists rule ::
               free == [Free(rule)] && NextPhase(settling.phase, Free(rule)) == settling.phase
    requires block == [] || exists milliseconds :: block == [Block(milliseconds)]
    requires release == if settling.phase.leased then [ReleaseLease] else []
    ensures Follow(p, head + free + block + release, c)
            == Progress(if settling.phase.leased then Idle else settling.phase, settling.stopped)
  {
    FollowConcat(p, head, free, c);
    FollowConcat(p, head + free, block, c);
    FollowConcat(p, head + free + block, release, c);
    SettlingSteps(settling, c, free, block, release);
  }

  lemma FailureIsAccepted(p: Progress, c: Context, turn: Turn, attempt: nat, resent: nat, done: seq<Action>,
      error: Error, dispatched: bool, leased: bool)
    requires attempt >= 1 && !p.stopped && HoldsNoLease(p.phase) && Stage(done, dispatched, leased)
    ensures var (acts, end) := AfterFailure(c, turn, attempt, resent, done, error, dispatched, leased);
            Accepted(p, acts, end, c)
  {
    var slept := if dispatched && SleepExplains(error) then Span(turn.suspends) else None;
    var settling := Progress(Settling(error, dispatched, leased), slept.None? && Final(error, c));
    FailureSettles(p, c, done, error, slept, dispatched, leased);
    var evidence := if !dispatched then Some("not_dispatched") else if error.Transport? then error.unconsumed else None;
    var free := if evidence.Some? && turn.reservation == Allowed(true) && c.budgetReleases
        && turn.releaseSucceeds then [Free(evidence.value)] else [];
    var resend := slept.Some? && resent < MAXIMUM_SUSPEND_RESENDS && !turn.abortedAfter;
    var block := BlockOf(c, error, attempt, !resend && Retryable(c, error, attempt, slept));
    var release := if leased then [ReleaseLease] else [];
    TailSettles(p, settling, c, done + [Fail(error, slept)], free, block, release);
  }

  lemma SettlingSteps(p: Progress, c: Context, free: seq<Action>, block: seq<Action>, release: seq<Action>)
    requires p.phase.Settling?
    requires free == [] || exists rule :: free == [Free(rule)] && NextPhase(p.phase, Free(rule)) == p.phase
    requires block == [] || exists milliseconds :: block == [Block(milliseconds)]
    requires release == if p.phase.leased then [ReleaseLease] else []
    ensures Follow(p, free, c) == p && Follow(p, block, c) == p
    ensures Follow(p, release, c) == Progress(if p.phase.leased then Idle else p.phase, p.stopped)
  {
    if free != [] { FollowOne(p, free[0], c); }
    if block != [] { FollowOne(p, block[0], c); }
    if release != [] { FollowOne(p, ReleaseLease, c); }
  }

  lemma TurnIsAccepted(p: Progress, c: Context, turn: Turn, attempt: nat, resent: nat)
    requires attempt >= 1 && !p.stopped && HoldsNoLease(p.phase)
    ensures var (acts, end) := TurnOf(c, turn, attempt, resent); Accepted(p, acts, end, c)
  {
    FollowDone(p, c);
    var log := [Reserve, TakeLease, Send, RecordUsage];
    FollowConcat(p, log, [ReleaseLease], c);
    FollowOne(Follow(p, log, c), ReleaseLease, c);
    assert log + [ReleaseLease] == [Reserve, TakeLease, Send, RecordUsage, ReleaseLease];
    if turn.reservation.Allowed? {
      if turn.acquireFails.Some? {
        FailureIsAccepted(p, c, turn, attempt, resent, [Reserve], turn.acquireFails.value, false, false);
      } else if turn.abortedAfterAcquire {
        FailureIsAccepted(p, c, turn, attempt, resent, [Reserve, TakeLease], CANCELLED, false, true);
      } else if turn.sendFails.Some? {
        FailureIsAccepted(p, c, turn, attempt, resent, [Reserve, TakeLease, Send], turn.sendFails.value, true, true);
      } else if turn.recordFails.Some? {
        FailureIsAccepted(p, c, turn, attempt, resent, [Reserve, TakeLease, Send], turn.recordFails.value, true, true);
      } else if turn.saveFails.Some? {
        FailureIsAccepted(p, c, turn, attempt, resent, [Reserve, TakeLease, Send, RecordUsage], turn.saveFails.value,
            true, true);
      }
    }
  }

  lemma CountSmall(a: Action, b: Action, d: Action, e: Action, action: Action)
    ensures CountOf([], action) == 0
    ensures CountOf([a], action) == if a == action then 1 else 0
    ensures CountOf([a, b], action) == CountOf([a], action) + if b == action then 1 else 0
    ensures CountOf([a, b, d], action) == CountOf([a, b], action) + if d == action then 1 else 0
    ensures CountOf([a, b, d, e], action) == CountOf([a, b, d], action) + if e == action then 1 else 0
  {
    assert [a, b][..1] == [a];
    assert [a, b, d][..2] == [a, b];
    assert [a, b, d, e][..3] == [a, b, d];
  }

  lemma FailureSendsNoMore(c: Context, turn: Turn, attempt: nat, resent: nat, done: seq<Action>, error: Error,
      dispatched: bool, leased: bool, action: Action)
    requires attempt >= 1 && (action == Send || action == Reserve)
    ensures CountOf(AfterFailure(c, turn, attempt, resent, done, error, dispatched, leased).0, action)
            == CountOf(done, action)
  {
    var slept := if dispatched && SleepExplains(error) then Span(turn.suspends) else None;
    var evidence := if !dispatched then Some("not_dispatched") else if error.Transport? then error.unconsumed else None;
    var free := if evidence.Some? && turn.reservation == Allowed(true) && c.budgetReleases
        && turn.releaseSucceeds then [Free(evidence.value)] else [];
    var resend := slept.Some? && resent < MAXIMUM_SUSPEND_RESENDS && !turn.abortedAfter;
    var block := BlockOf(c, error, attempt, !resend && Retryable(c, error, attempt, slept));
    var release := if leased then [ReleaseLease] else [];
    TailCountsNothing(done, [Fail(error, slept)], free, block, release, action);
  }

  lemma TailCountsNothing(done: seq<Action>, fail: seq<Action>, free: seq<Action>, block: seq<Action>,
      release: seq<Action>, action: Action)
    requires forall i :: 0 <= i < |fail| ==> fail[i] != action
    requires forall i :: 0 <= i < |free| ==> free[i] != action
    requires forall i :: 0 <= i < |block| ==> block[i] != action
    requires forall i :: 0 <= i < |release| ==> release[i] != action
    ensures CountOf(done + fail + free + block + release, action) == CountOf(done, action)
  {
    CountConcat(done, fail, action);
    CountConcat(done + fail, free, action);
    CountConcat(done + fail + free, block, action);
    CountConcat(done + fail + free + block, release, action);
    NoneCounted(fail, action);
    NoneCounted(free, action);
    NoneCounted(block, action);
    NoneCounted(release, action);
  }

  lemma {:induction false} NoneCounted(log: seq<Action>, action: Action)
    requires forall i :: 0 <= i < |log| ==> log[i] != action
    ensures CountOf(log, action) == 0
  {
    if log != [] {
      NoneCounted(log[..|log| - 1], action);
    }
  }

  lemma TurnSendsAtMostOnce(c: Context, turn: Turn, attempt: nat, resent: nat, action: Action)
    requires attempt >= 1 && (action == Send || action == Reserve)
    ensures CountOf(TurnOf(c, turn, attempt, resent).0, action) <= 1
  {
    CountSmall(Reserve, TakeLease, Send, RecordUsage, action);
    CountConcat([Reserve, TakeLease, Send, RecordUsage], [ReleaseLease], action);
    CountSmall(ReleaseLease, TakeLease, Send, RecordUsage, action);
    assert [Reserve, TakeLease, Send, RecordUsage] + [ReleaseLease]
        == [Reserve, TakeLease, Send, RecordUsage, ReleaseLease];
    if turn.reservation.Allowed? {
      if turn.acquireFails.Some? {
        FailureSendsNoMore(c, turn, attempt, resent, [Reserve], turn.acquireFails.value, false, false, action);
      } else if turn.abortedAfterAcquire {
        FailureSendsNoMore(c, turn, attempt, resent, [Reserve, TakeLease], CANCELLED, false, true, action);
      } else if turn.sendFails.Some? {
        FailureSendsNoMore(c, turn, attempt, resent, [Reserve, TakeLease, Send], turn.sendFails.value, true, true,
            action);
      } else if turn.recordFails.Some? {
        FailureSendsNoMore(c, turn, attempt, resent, [Reserve, TakeLease, Send], turn.recordFails.value, true, true,
            action);
      } else if turn.saveFails.Some? {
        FailureSendsNoMore(c, turn, attempt, resent, [Reserve, TakeLease, Send, RecordUsage], turn.saveFails.value,
            true, true, action);
      }
    }
  }

  // ----- What an accepted log promises

  lemma {:induction false} PrefixIsAccepted(log: seq<Action>, c: Context, k: nat)
    requires k <= |log| && ProgressOf(log, c).phase != Broken
    ensures ProgressOf(log[..k], c).phase != Broken
    ensures ProgressOf(log[..k], c).stopped ==> ProgressOf(log, c).stopped
  {
    if k < |log| {
      PrefixIsAccepted(log[..|log| - 1], c, k);
      assert log[..|log| - 1][..k] == log[..k];
    } else {
      assert log[..k] == log;
    }
  }

  /** Every send comes right after its lease, and the lease right after an allowed reservation. */
  lemma SendsAreBacked(log: seq<Action>, c: Context, k: nat)
    requires ProgressOf(log, c).phase != Broken && k < |log| && log[k] == Send
    ensures k >= 2 && log[k - 1] == TakeLease && log[k - 2] == Reserve
  {
    PrefixIsAccepted(log, c, k + 1);
    var before := log[..k];
    assert log[..k + 1][..k] == before;
    assert ProgressOf(before, c).phase == Leased;
    assert before[..|before| - 1] == log[..k - 1];
    assert ProgressOf(log[..k - 1], c).phase == Reserved;
    assert log[..k - 1][..k - 2] == log[..k - 2];
  }

  /** Every lease taken is released, whatever path the invocation ends on. */
  lemma {:induction false} LeasesBalance(log: seq<Action>, c: Context)
    requires ProgressOf(log, c).phase != Broken
    ensures CountOf(log, TakeLease) == CountOf(log, ReleaseLease) + if HoldsNoLease(ProgressOf(log, c).phase)
            || ProgressOf(log, c).phase == Reserved then 0 else 1
  {
    if log != [] {
      LeasesBalance(log[..|log| - 1], c);
    }
  }

  /** Nothing is sent or reserved after a failure that no sleep explains and that its transport
      does not call retryable, nor after such a timeout when timeouts are not retried. */
  lemma NothingAfterAFinalFailure(log: seq<Action>, c: Context, i: nat, j: nat)
    requires ProgressOf(log, c).phase != Broken && i < j < |log|
    requires log[i].Fail? && log[i].slept.None?
    requires !(log[i].error.Transport? && log[i].error.retryable) || (log[i].error.code == Timeout && !c.retryTimeouts)
    ensures log[j] != Send && log[j] != Reserve
  {
    hide NextPhase;
    NextProgress(log, c, i);
    NextProgress(log, c, j);
    PrefixIsAccepted(log, c, j + 1);
    PrefixIsAccepted(log, c, j);
    PrefixIsAccepted(log[..j], c, i + 1);
    assert log[..j][..i + 1] == log[..i + 1];
  }

  /** A sleep is named only for an attempt that was sent, and whose failure a broken connection explains. */
  lemma SleepsCutOnlySends(log: seq<Action>, c: Context, i: nat)
    requires ProgressOf(log, c).phase != Broken && i < |log| && log[i].Fail? && log[i].slept.Some?
    ensures i >= 1 && (log[i - 1] == Send || log[i - 1] == RecordUsage) && Breakable(log[i].error)
  {
    PrefixIsAccepted(log, c, i + 1);
    NextProgress(log, c, i);
    assert ProgressOf(log[..i], c).phase == InFlight;
    NextProgress(log, c, i - 1);
  }

  lemma NextProgress(log: seq<Action>, c: Context, k: nat)
    requires k < |log|
    ensures ProgressOf(log[..k + 1], c) == Next(ProgressOf(log[..k], c), log[k], c)
  {
    hide Next;
    assert log[..k + 1][..k] == log[..k];
  }

  /** Where a settling attempt failed: after the failure only a freed reservation and a block may stand. */
  lemma {:induction false} SettlingComesFromAFailure(log: seq<Action>, c: Context) returns (j: nat)
    requires ProgressOf(log, c).phase.Settling?
    ensures 1 <= j < |log| && log[j].Fail? && log[j].error == ProgressOf(log, c).phase.error
    ensures ProgressOf(log, c).phase.dispatched <==> log[j - 1] == Send || log[j - 1] == RecordUsage
    ensures forall i :: j < i < |log| ==> !log[i].Fail? && log[i] != Send
  {
    var n := |log| - 1;
    if log[n].Fail? {
      j := n;
      assert log[..n][..n - 1] == log[..n - 1];
    } else {
      j := SettlingComesFromAFailure(log[..n], c);
    }
  }

  /** A reservation is freed only for an attempt never sent, or one its own error proves consumed nothing. */
  lemma FreedOnlyWhenProven(log: seq<Action>, c: Context, k: nat) returns (j: nat)
    requires ProgressOf(log, c).phase != Broken && k < |log| && log[k].Free?
    ensures 1 <= j < k && log[j].Fail? && forall i :: j < i < k ==> !log[i].Fail? && log[i] != Send
    ensures (log[j - 1] != Send && log[j - 1] != RecordUsage)
            || (log[j].error.Transport? && log[j].error.unconsumed == Some(log[k].rule))
  {
    PrefixIsAccepted(log, c, k + 1);
    assert log[..k + 1][..k] == log[..k];
    j := SettlingComesFromAFailure(log[..k], c);
  }

  // ----- The invocation

  /** The failure the invocation ends with: the error, and the sleep that cut its last attempt. */
  function Classify(c: Context, error: Error, cut: bool, slept: Option<Suspend>): Result {
    if error.Transport? && error.code == Quota then UsageLimit
    else if cut && slept.Some? then HostSuspended(slept.value)
    else if TimeLimited(error, c) then TimeLimit
    else Failed(error)
  }

  function Merge(slept: Option<Suspend>, more: Option<Suspend>): Option<Suspend> {
    if more.None? then slept
    else if slept.None? then more
    else Some(Suspend(Min(slept.value.from, more.value.from), Max(slept.value.to, more.value.to)))
  }

  /** A log that broke no rule, holds no lease, balances its leases and sent and reserved at most `bound` times. */
  ghost predicate Safe(log: seq<Action>, c: Context, bound: nat) {
    && ProgressOf(log, c).phase != Broken && HoldsNoLease(ProgressOf(log, c).phase)
    && CountOf(log, TakeLease) == CountOf(log, ReleaseLease)
    && CountOf(log, Send) <= bound && CountOf(log, Reserve) <= bound
  }

  lemma SleepKeepsSafe(log: seq<Action>, c: Context, delay: int, bound: nat)
    requires Safe(log, c, bound)
    ensures Safe(log + [Sleep(delay)], c, bound)
    ensures ProgressOf(log + [Sleep(delay)], c).stopped == ProgressOf(log, c).stopped
  {
    Append(log, Sleep(delay), c);
    LeasesBalance(log + [Sleep(delay)], c);
  }

  /** The last failure of a log, and the sleep that explains it. */
  function LastFailure(log: seq<Action>): Option<(Error, Option<Suspend>)> {
    if log == [] then None
    else
      match log[|log| - 1]
      case Fail(error, slept) => Some((error, slept))
      case _ => LastFailure(log[..|log| - 1])
  }

  lemma {:induction false} LastFailureConcat(a: seq<Action>, b: seq<Action>)
    ensures LastFailure(a + b) == if LastFailure(b).Some? then LastFailure(b) else LastFailure(a)
  {
    if b == [] {
      assert a + b == a;
    } else if !b[|b| - 1].Fail? {
      LastFailureConcat(a, b[..|b| - 1]);
      assert (a + b)[..|a + b| - 1] == a + b[..|b| - 1];
    }
  }

  lemma {:induction false} NoFailure(log: seq<Action>)
    requires forall i :: 0 <= i < |log| ==> !log[i].Fail?
    ensures LastFailure(log) == None
  {
    if log != [] {
      NoFailure(log[..|log| - 1]);
    }
  }

  lemma TailFailsNoMore(done: seq<Action>, error: Error, slept: Option<Suspend>, free: seq<Action>, block: seq<Action>,
      release: seq<Action>)
    requires LastFailure(free) == None && LastFailure(block) == None && LastFailure(release) == None
    ensures LastFailure(done + [Fail(error, slept)] + free + block + release) == Some((error, slept))
  {
    var head := done + [Fail(error, slept)];
    LastFailureConcat(head, free);
    LastFailureConcat(head + free, block);
    LastFailureConcat(head + free + block, release);
  }

  lemma FailureIsTheLast(c: Context, turn: Turn, attempt: nat, resent: nat, done: seq<Action>, error: Error,
      dispatched: bool, leased: bool)
    requires attempt >= 1
    ensures var (acts, end) := AfterFailure(c, turn, attempt, resent, done, error, dispatched, leased);
            && (end.GiveUp? ==> LastFailure(acts) == Some((end.error, end.slept)))
  {
    var slept := if dispatched && SleepExplains(error) then Span(turn.suspends) else None;
    var evidence := if !dispatched then Some("not_dispatched") else if error.Transport? then error.unconsumed else None;
    var free := if evidence.Some? && turn.reservation == Allowed(true) && c.budgetReleases
        && turn.releaseSucceeds then [Free(evidence.value)] else [];
    var resend := slept.Some? && resent < MAXIMUM_SUSPEND_RESENDS && !turn.abortedAfter;
    var block := BlockOf(c, error, attempt, !resend && Retryable(c, error, attempt, slept));
    var release := if leased then [ReleaseLease] else [];
    NoFailure(free);
    NoFailure(block);
    NoFailure(release);
    TailFailsNoMore(done, error, slept, free, block, release);
  }

  lemma GivingUpFollowsItsFailure(c: Context, turn: Turn, attempt: nat, resent: nat)
    requires attempt >= 1 && TurnOf(c, turn, attempt, resent).1.GiveUp?
    ensures var (acts, end) := TurnOf(c, turn, attempt, resent);
            LastFailure(acts) == Some((end.error, end.slept))
  {
    if turn.acquireFails.Some? {
      FailureIsTheLast(c, turn, attempt, resent, [Reserve], turn.acquireFails.value, false, false);
    } else if turn.abortedAfterAcquire {
      FailureIsTheLast(c, turn, attempt, resent, [Reserve, TakeLease], CANCELLED, false, true);
    } else if turn.sendFails.Some? {
      FailureIsTheLast(c, turn, attempt, resent, [Reserve, TakeLease, Send], turn.sendFails.value, true, true);
    } else if turn.recordFails.Some? {
      FailureIsTheLast(c, turn, attempt, resent, [Reserve, TakeLease, Send], turn.recordFails.value, true, true);
    } else if turn.saveFails.Some? {
      FailureIsTheLast(c, turn, attempt, resent, [Reserve, TakeLease, Send, RecordUsage], turn.saveFails.value, true,
          true);
    }
  }

  // ----- What a turn's environment makes of it

  /** The turn comes to an attempt: the caller goes on, the computer is awake and the budget has room. */
  predicate Attempts(turn: Turn) { !turn.abortedAtStart && turn.awakeFails.None? && turn.reservation.Allowed? }

  predicate Leases(turn: Turn) { Attempts(turn) && turn.acquireFails.None? }

  predicate Dispatches(turn: Turn) { Leases(turn) && !turn.abortedAfterAcquire }

  predicate Records(turn: Turn) { Dispatches(turn) && turn.sendFails.None? && turn.recordFails.None? }

  /** The send, the record of its usage and the saving of its continuation all succeeded. */
  predicate Succeeds(turn: Turn) { Records(turn) && turn.saveFails.None? }

  /** What the attempt failed with. */
  function ErrorOf(turn: Turn): Error
    requires Attempts(turn) && !Succeeds(turn)
  {
    if !Leases(turn) then turn.acquireFails.value
    else if !Dispatches(turn) then CANCELLED
    else if Records(turn) then turn.saveFails.value
    else if turn.sendFails.Some? then turn.sendFails.value
    else turn.recordFails.value
  }

  predicate Fails(turn: Turn) { Attempts(turn) && !Succeeds(turn) }

  /** A suspend cut the attempt. */
  predicate Cut(turn: Turn) { Fails(turn) && Dispatches(turn) && Breakable(ErrorOf(turn)) && turn.suspends != [] }

  /** The attempt is sent again without counting. */
  predicate Uncounted(turn: Turn, resent: nat) {
    Cut(turn) && resent < MAXIMUM_SUSPEND_RESENDS && !turn.abortedAfter
  }

  /** The attempt is to be repeated as another attempt. */
  predicate Counted(c: Context, turn: Turn, attempt: nat, resent: nat) {
    && Fails(turn) && !Uncounted(turn, resent) && attempt <= c.maximumRetries
    && (Cut(turn) || !Final(ErrorOf(turn), c))
  }

  /** The delay before it, which no timer takes if the provider's hint is negative. */
  predicate HasDelay(error: Error) { error.Transport? && error.retryAfter.Some? ==> error.retryAfter.value >= 0 }

  /** Another turn follows this one. */
  predicate GoesOn(c: Context, turn: Turn, attempt: nat, resent: nat, sleep: SleepEnd) {
    || Uncounted(turn, resent)
    || (Counted(c, turn, attempt, resent) && HasDelay(ErrorOf(turn)) && sleep == Woke)
  }

  function Once(action: Action, happens: bool): seq<Action> { if happens then [action] else [] }

  /** The rule under which the attempt's reservation is freed, if it provably consumed nothing. */
  function FreedAs(c: Context, turn: Turn): Option<string> {
    if !Fails(turn) || turn.reservation != Allowed(true) || !c.budgetReleases || !turn.releaseSucceeds then None
    else if !Dispatches(turn) then Some("not_dispatched")
    else if ErrorOf(turn).Transport? then ErrorOf(turn).unconsumed
    else None
  }

  /** The span of the suspends that cut the attempt. */
  function CutBy(turn: Turn): Option<Suspend> { if Cut(turn) then Span(turn.suspends) else None }

  predicate IsRateLimit(turn: Turn) { Fails(turn) && ErrorOf(turn).Transport? && ErrorOf(turn).code == RateLimit }

  /** What a turn does before its failure, if any. */
  function Doing(turn: Turn): seq<Action> {
    Once(Reserve, Attempts(turn)) + Once(TakeLease, Leases(turn)) + Once(Send, Dispatches(turn))
    + Once(RecordUsage, Records(turn))
  }

  function Freeing(c: Context, turn: Turn): seq<Action> {
    if FreedAs(c, turn).Some? then [Free(FreedAs(c, turn).value)] else []
  }

  function Blocking(c: Context, turn: Turn, attempt: nat, resent: nat): seq<Action>
    requires attempt >= 1
  {
    if Counted(c, turn, attempt, resent) && HasDelay(ErrorOf(turn)) && IsRateLimit(turn)
    then [Block(RetryDelay(c, ErrorOf(turn), attempt).value)] else []
  }

  lemma FailureDoes(c: Context, turn: Turn, attempt: nat, resent: nat, done: seq<Action>)
    requires attempt >= 1 && Fails(turn)
    ensures AfterFailure(c, turn, attempt, resent, done, ErrorOf(turn), Dispatches(turn), Leases(turn)).0
            == done + [Fail(ErrorOf(turn), CutBy(turn))] + Freeing(c, turn) + Blocking(c, turn, attempt, resent)
               + Once(ReleaseLease, Leases(turn))
  {
    hide RetryDelay, Span, Attempts, Succeeds, Records;
    SpanIsTight(turn.suspends);
    DelayIsTaken(c, ErrorOf(turn), attempt);
  }

  lemma TurnFails(c: Context, turn: Turn, attempt: nat, resent: nat)
    requires attempt >= 1 && Fails(turn)
    ensures TurnOf(c, turn, attempt, resent)
            == AfterFailure(c, turn, attempt, resent, Doing(turn), ErrorOf(turn), Dispatches(turn), Leases(turn))
  {
    hide AfterFailure, Doing;
    DoingIs(turn);
  }

  /** What a turn does: each action if and only if what it is for came to be, in this order. */
  lemma TurnDoes(c: Context, turn: Turn, attempt: nat, resent: nat)
    requires attempt >= 1
    ensures TurnOf(c, turn, attempt, resent).0
            == Doing(turn) + (if Fails(turn) then [Fail(ErrorOf(turn), CutBy(turn))] else []) + Freeing(c, turn)
               + Blocking(c, turn, attempt, resent) + Once(ReleaseLease, Leases(turn))
  {
    hide RetryDelay, AfterFailure, ErrorOf, CutBy;
    if Fails(turn) {
      TurnFails(c, turn, attempt, resent);
      FailureDoes(c, turn, attempt, resent, Doing(turn));
    } else {
      assert Freeing(c, turn) == [] && Blocking(c, turn, attempt, resent) == [];
    }
  }

  lemma DelayIsTaken(c: Context, error: Error, attempt: nat)
    requires attempt >= 1
    ensures RetryDelay(c, error, attempt).Some? <==> HasDelay(error)
  {
  }

  /** How it ends. */
  lemma TurnEnds(c: Context, turn: Turn, attempt: nat, resent: nat)
    requires attempt >= 1
    ensures var end := TurnOf(c, turn, attempt, resent).1;
            && (end.Resend? <==> Uncounted(turn, resent)) && (end.Resend? ==> Some(end.span) == CutBy(turn))
            && (end.Retry? <==> Counted(c, turn, attempt, resent) && HasDelay(ErrorOf(turn)))
            && (end.Retry? ==> end.error == ErrorOf(turn) && end.slept == CutBy(turn)
                               && Some(end.delay) == RetryDelay(c, ErrorOf(turn), attempt))
            && (end.GiveUp? <==> Fails(turn) && !Uncounted(turn, resent) && !Counted(c, turn, attempt, resent))
            && (end.GiveUp? ==> end.error == ErrorOf(turn) && end.slept == CutBy(turn))
            && (Succeeds(turn) ==> end == Finish(Returned)) && (!Attempts(turn) ==> end == Finish(Unattempted(turn)))
            && (end.Finish? && Fails(turn) ==> end.result == Threw(InvalidTimerDelay))
  {
    hide RetryDelay, ErrorOf, Span;
    if Fails(turn) {
      TurnFails(c, turn, attempt, resent);
      SpanIsTight(turn.suspends);
      DelayIsTaken(c, ErrorOf(turn), attempt);
    }
  }

  /** How a turn ends that comes to no attempt. */
  function Unattempted(turn: Turn): Result {
    if turn.abortedAtStart || (turn.awakeFails.Some? && turn.abortedWhileAsleep) then CancelledBeforeDispatch
    else if turn.awakeFails.Some? then Threw(turn.awakeFails.value)
    else if turn.reservation.ReserveThrows? then Threw(turn.reservation.error)
    else BudgetSuspended
  }

  /** The span of some suspends starts with the first and ends with the last. */
  lemma {:induction false} SpanIsTight(suspends: seq<Suspend>)
    ensures Span(suspends).None? <==> suspends == []
    ensures forall s :: s in suspends ==> Span(suspends).value.from <= s.from && s.to <= Span(suspends).value.to
    ensures suspends != [] ==> exists a, b ::
              a in suspends && b in suspends && Span(suspends) == Some(Suspend(a.from, b.to))
  {
    if suspends != [] {
      SpanIsTight(suspends[1..]);
      assert suspends == [suspends[0]] + suspends[1..];
      if suspends[1..] == [] {
        assert Span(suspends) == Some(Suspend(suspends[0].from, suspends[0].to));
      } else {
        var a, b :| a in suspends[1..] && b in suspends[1..] && Span(suspends[1..]) == Some(Suspend(a.from, b.to));
        var first := if suspends[0].from < a.from then suspends[0] else a;
        var last := if suspends[0].to < b.to then b else suspends[0];
        assert Span(suspends) == Some(Suspend(first.from, last.to));
      }
    }
  }

  /** The wait before another attempt: what the provider asks for, else one second, doubled
      for each attempt before and cut at the maximum; never more than a timer takes. */
  lemma BackoffDoubles(c: Context, error: Error, attempt: nat)
    requires attempt >= 1 && HasDelay(error) && c.maximumBackoffMs <= MAX_TIMER_DELAY_MS
    ensures 0 <= RetryDelay(c, error, attempt).value <= MAX_TIMER_DELAY_MS
    ensures error.Transport? && error.retryAfter.Some? && error.retryAfter.value <= MAX_TIMER_DELAY_MS ==>
              RetryDelay(c, error, attempt) == error.retryAfter
    ensures !error.Transport? || error.retryAfter.None? ==>
              && RetryDelay(c, error, 1) == Some(Min(c.maximumBackoffMs, 1_000))
              && RetryDelay(c, error, attempt + 1)
                 == Some(Min(c.maximumBackoffMs, 2 * RetryDelay(c, error, attempt).value))
  {
    var last := 1_000 * Pow2(attempt - 1);
    assert 1_000 * Pow2(attempt) == 2 * last;
  }

  // ----- Turns as the loop sees them

  /** What a turn may do, whatever its environment answered. */
  ghost predicate LegalTurn(c: Context, attempt: nat, resent: nat, acts: seq<Action>, end: End) {
    && CountOf(acts, Send) <= 1 && CountOf(acts, Reserve) <= 1
    && (forall p: Progress {:trigger Accepted(p, acts, end, c)} :: HoldsNoLease(p.phase) && !p.stopped ==>
        Accepted(p, acts, end, c))
    && (end.Retry? ==> attempt <= c.maximumRetries)
    && (end.Resend? ==> resent < MAXIMUM_SUSPEND_RESENDS)
    && (end.Finish? ==> !end.result.TimeLimit? && !end.result.HostSuspended?)
    && (end.GiveUp? ==> LastFailure(acts) == Some((end.error, end.slept)))
    && (end.GiveUp? ==> end.slept.Some? ==> SleepExplains(end.error))
  }

  lemma TurnIsLegal(c: Context, turn: Turn, attempt: nat, resent: nat)
    requires attempt >= 1
    ensures LegalTurn(c, attempt, resent, TurnOf(c, turn, attempt, resent).0, TurnOf(c, turn, attempt, resent).1)
  {
    var (acts, end) := TurnOf(c, turn, attempt, resent);
    TurnSendsAtMostOnce(c, turn, attempt, resent, Send);
    TurnSendsAtMostOnce(c, turn, attempt, resent, Reserve);
    forall p: Progress | HoldsNoLease(p.phase) && !p.stopped ensures Accepted(p, acts, end, c) {
      TurnIsAccepted(p, c, turn, attempt, resent);
    }
    if end.GiveUp? {
      GivingUpFollowsItsFailure(c, turn, attempt, resent);
    }
    EndIsLegal(c, turn, attempt, resent);
  }

  lemma EndIsLegal(c: Context, turn: Turn, attempt: nat, resent: nat)
    requires attempt >= 1
    ensures var end := TurnOf(c, turn, attempt, resent).1;
            && (end.Retry? ==> attempt <= c.maximumRetries)
            && (end.Resend? ==> resent < MAXIMUM_SUSPEND_RESENDS)
            && (end.Finish? ==> !end.result.TimeLimit? && !end.result.HostSuspended?)
            && (end.GiveUp? ==> end.slept.Some? ==> SleepExplains(end.error))
  {
  }

  /** The `t`-th turn, as a function of the attempt number and the resends so far, and how its wait ends. */
  type Turns = (nat, nat, nat) -> (seq<Action>, End)

  ghost predicate Legal(c: Context, step: Turns) {
    forall t, attempt, resent {:trigger step(t, attempt, resent)} :: attempt >= 1 ==>
      LegalTurn(c, attempt, resent, step(t, attempt, resent).0, step(t, attempt, resent).1)
  }

  function TurnsOf(c: Context, turns: nat -> Turn): Turns {
    (t: nat, attempt: nat, resent: nat) =>
      if attempt >= 1 then TurnOf(c, turns(t), attempt, resent) else ([], Finish(CancelledBeforeDispatch))
  }

  lemma TurnsAreLegal(c: Context, turns: nat -> Turn)
    ensures Legal(c, TurnsOf(c, turns))
  {
    forall t: nat, attempt: nat, resent: nat | attempt >= 1
      ensures LegalTurn(c, attempt, resent, TurnsOf(c, turns)(t, attempt, resent).0,
              TurnsOf(c, turns)(t, attempt, resent).1)
    {
      TurnIsLegal(c, turns(t), attempt, resent);
    }
  }

  lemma TurnKeepsSafe(log: seq<Action>, c: Context, attempt: nat, resent: nat, acts: seq<Action>, end: End, bound: nat)
    requires LegalTurn(c, attempt, resent, acts, end) && Safe(log, c, bound) && !ProgressOf(log, c).stopped
    ensures Safe(log + acts, c, bound + 1) && (end.Resend? || end.Retry? ==> !ProgressOf(log + acts, c).stopped)
  {
    assert Accepted(ProgressOf(log, c), acts, end, c);
    CountConcat(log, acts, Send);
    CountConcat(log, acts, Reserve);
    FollowIsProgress(log, acts, c);
    LeasesBalance(log + acts, c);
  }

  function SleepError(sleep: SleepEnd): Error
    requires sleep != Woke
  {
    if sleep == Aborted then CANCELLED else Other
  }

  /** What `invoke` has done, and how it ends, when its `t`-th turn begins after `log`. */
  function InvokeFrom(c: Context, step: Turns, sleeps: nat -> SleepEnd, t: nat, attempt: nat, resent: nat,
      slept: Option<Suspend>, log: seq<Action>): (Result, seq<Action>)
    requires 1 <= attempt <= c.maximumRetries + 1 && resent <= MAXIMUM_SUSPEND_RESENDS
    requires Legal(c, step)
    decreases c.maximumRetries + 1 - attempt + MAXIMUM_SUSPEND_RESENDS - resent
  {
    var (acts, end) := step(t, attempt, resent);
    match end
    case Finish(result) => (result, log + acts)
    case GiveUp(error, span) => (Classify(c, error, span.Some?, Merge(slept, span)), log + acts)
    case Resend(span) => InvokeFrom(c, step, sleeps, t + 1, attempt, resent + 1, Merge(slept, Some(span)), log + acts)
    case Retry(error, span, delay) =>
      if sleeps(t) != Woke then (Classify(c, SleepError(sleeps(t)), false, Merge(slept, span)), log + acts)
      else InvokeFrom(c, step, sleeps, t + 1, attempt + 1, resent, Merge(slept, span), log + acts + [Sleep(delay)])
  }

  /** A sleep is named only when it cut the last attempt, and a time limit only when
      the last attempt timed out, no sleep explains it and timeouts are not retried. */
  predicate EndsTruly(result: Result, last: Option<(Error, Option<Suspend>)>, c: Context) {
    && (result.HostSuspended? ==> last.Some? && last.value.1.Some? && SleepExplains(last.value.0))
    && (result.TimeLimit? ==> last.Some? && last.value.1.None? && TimeLimited(last.value.0, c))
  }

  /** How an invocation ends is what its last failure says. */
  lemma {:induction false} EndsAsItsLastFailureSays(c: Context, step: Turns, sleeps: nat -> SleepEnd, t: nat,
      attempt: nat, resent: nat, slept: Option<Suspend>, log: seq<Action>)
    requires 1 <= attempt <= c.maximumRetries + 1 && resent <= MAXIMUM_SUSPEND_RESENDS && Legal(c, step)
    ensures var (result, whole) := InvokeFrom(c, step, sleeps, t, attempt, resent, slept, log);
            EndsTruly(result, LastFailure(whole), c)
    decreases c.maximumRetries + 1 - attempt + MAXIMUM_SUSPEND_RESENDS - resent
  {
    var (acts, end) := step(t, attempt, resent);
    match end {
      case Finish(_) =>
      case GiveUp(_, _) => LastFailureConcat(log, acts);
      case Resend(span) =>
        EndsAsItsLastFailureSays(c, step, sleeps, t + 1, attempt, resent + 1, Merge(slept, Some(span)), log + acts);
      case Retry(_, span, delay) =>
        if sleeps(t) == Woke {
          EndsAsItsLastFailureSays(c, step, sleeps, t + 1, attempt + 1, resent, Merge(slept, span),
              log + acts + [Sleep(delay)]);
        }
    }
  }

  /** A log the next turn may begin after: as many sends as attempts and resends spent, and none of them stopped. */
  ghost predicate Ready(log: seq<Action>, c: Context, attempt: nat, resent: nat) {
    attempt >= 1 && Safe(log, c, attempt - 1 + resent) && !ProgressOf(log, c).stopped
  }

  lemma TurnLeavesReady(c: Context, attempt: nat, resent: nat, acts: seq<Action>, end: End, log: seq<Action>)
    requires LegalTurn(c, attempt, resent, acts, end) && Ready(log, c, attempt, resent)
    ensures Safe(log + acts, c, attempt + resent)
    ensures end.Resend? ==> Ready(log + acts, c, attempt, resent + 1)
    ensures end.Retry? ==> Ready(log + acts + [Sleep(end.delay)], c, attempt + 1, resent)
  {
    TurnKeepsSafe(log, c, attempt, resent, acts, end, attempt - 1 + resent);
    if end.Retry? {
      SleepKeepsSafe(log + acts, c, end.delay, attempt + resent);
    }
  }

  lemma SafeWithin(log: seq<Action>, c: Context, bound: nat, more: nat)
    requires Safe(log, c, bound) && bound <= more
    ensures Safe(log, c, more)
  {
    hide ProgressOf, CountOf;
  }

  lemma RetriesAreLegal(c: Context, attempt: nat, resent: nat, acts: seq<Action>, end: End)
    requires LegalTurn(c, attempt, resent, acts, end)
    ensures end.Retry? ==> attempt <= c.maximumRetries
    ensures end.Resend? ==> resent < MAXIMUM_SUSPEND_RESENDS
  {
    hide CountOf, Accepted, LastFailure;
  }

  /** Over any legal turns: a bounded number of sends, each
      under a reservation and a lease, and every lease released. */
  lemma {:induction false} InvokingIsSafe(c: Context, step: Turns, sleeps: nat -> SleepEnd, t: nat, attempt: nat,
      resent: nat, slept: Option<Suspend>, log: seq<Action>)
    requires 1 <= attempt <= c.maximumRetries + 1 && resent <= MAXIMUM_SUSPEND_RESENDS && Legal(c, step)
    requires Ready(log, c, attempt, resent)
    ensures Safe(InvokeFrom(c, step, sleeps, t, attempt, resent, slept, log).1, c,
            c.maximumRetries + 1 + MAXIMUM_SUSPEND_RESENDS)
    decreases c.maximumRetries + 1 - attempt + MAXIMUM_SUSPEND_RESENDS - resent
  {
    hide Safe, LegalTurn, Ready;
    var (acts, end) := step(t, attempt, resent);
    TurnLeavesReady(c, attempt, resent, acts, end, log);
    SafeWithin(log + acts, c, attempt + resent, c.maximumRetries + 1 + MAXIMUM_SUSPEND_RESENDS);
    RetriesAreLegal(c, attempt, resent, acts, end);
    match end {
      case Finish(_) =>
      case GiveUp(_, _) =>
      case Resend(span) =>
        InvokingIsSafe(c, step, sleeps, t + 1, attempt, resent + 1, Merge(slept, Some(span)), log + acts);
      case Retry(_, span, delay) =>
        if sleeps(t) == Woke {
          InvokingIsSafe(c, step, sleeps, t + 1, attempt + 1, resent, Merge(slept, span), log + acts + [Sleep(delay)]);
        }
    }
  }

  // ----- The turns an invocation takes

  /** A turn, its attempt number, and how often a call was sent again uncounted before it. */
  datatype Visit = Visit(t: nat, attempt: nat, resent: nat)

  /** The turns taken from the `t`-th on, as their environments decide. */
  function Taken(c: Context, turns: nat -> Turn, sleeps: nat -> SleepEnd, t: nat, attempt: nat, resent: nat): seq<Visit>
    requires 1 <= attempt <= c.maximumRetries + 1 && resent <= MAXIMUM_SUSPEND_RESENDS
    decreases c.maximumRetries + 1 - attempt + MAXIMUM_SUSPEND_RESENDS - resent
  {
    [Visit(t, attempt, resent)]
    + if !GoesOn(c, turns(t), attempt, resent, sleeps(t)) then []
      else
        var next := NextVisit(turns, t, attempt, resent);
        Taken(c, turns, sleeps, next.t, next.attempt, next.resent)
  }

  /** A call sent again uncounted keeps its attempt number. */
  function NextVisit(turns: nat -> Turn, t: nat, attempt: nat, resent: nat): Visit {
    if Uncounted(turns(t), resent) then Visit(t + 1, attempt, resent + 1) else Visit(t + 1, attempt + 1, resent)
  }

  lemma TakenUnfolds(c: Context, turns: nat -> Turn, sleeps: nat -> SleepEnd, t: nat, attempt: nat, resent: nat)
    requires 1 <= attempt <= c.maximumRetries + 1 && resent <= MAXIMUM_SUSPEND_RESENDS
    ensures var taken := Taken(c, turns, sleeps, t, attempt, resent);
            && taken != [] && taken[0] == Visit(t, attempt, resent)
            && if GoesOn(c, turns(t), attempt, resent, sleeps(t)) then
                 var next := NextVisit(turns, t, attempt, resent);
                 && 1 <= next.attempt <= c.maximumRetries + 1 && next.resent <= MAXIMUM_SUSPEND_RESENDS
                 && c.maximumRetries - next.attempt - next.resent < c.maximumRetries - attempt - resent
                 && taken[1..] == Taken(c, turns, sleeps, t + 1, next.attempt, next.resent)
               else taken[1..] == []
  {
    hide Cut, Fails, ErrorOf, Final;
  }

  /** What they do, one after another, with the wait before each further attempt. */
  function Joined(c: Context, turns: nat -> Turn, taken: seq<Visit>): seq<Action>
    requires forall i :: 0 <= i < |taken| ==> taken[i].attempt >= 1
    decreases |taken|
  {
    if taken == [] then []
    else
      var v := taken[0];
      var waits := |taken| > 1 && taken[1].attempt > v.attempt && TurnOf(c, turns(v.t), v.attempt, v.resent).1.Retry?;
      TurnOf(c, turns(v.t), v.attempt, v.resent).0
      + (if waits then [Sleep(TurnOf(c, turns(v.t), v.attempt, v.resent).1.delay)] else [])
      + Joined(c, turns, taken[1..])
  }

  /** The sleep the call lived through: from the first suspend that cut an attempt to the last. */
  function SleptThrough(slept: Option<Suspend>, turns: nat -> Turn, taken: seq<Visit>): Option<Suspend>
    decreases |taken|
  {
    if taken == [] then slept else SleptThrough(Merge(slept, CutBy(turns(taken[0].t))), turns, taken[1..])
  }

  lemma {:induction false} TakenAreAttempts(c: Context, turns: nat -> Turn, sleeps: nat -> SleepEnd, t: nat,
      attempt: nat, resent: nat)
    requires 1 <= attempt <= c.maximumRetries + 1 && resent <= MAXIMUM_SUSPEND_RESENDS
    ensures var taken := Taken(c, turns, sleeps, t, attempt, resent);
            && taken != [] && taken[0] == Visit(t, attempt, resent)
            && forall i :: 0 <= i < |taken| ==> taken[i].t == t + i && 1 <= taken[i].attempt <= c.maximumRetries + 1
    decreases c.maximumRetries + 1 - attempt + MAXIMUM_SUSPEND_RESENDS - resent
  {
    hide GoesOn, Uncounted, Taken;
    TakenUnfolds(c, turns, sleeps, t, attempt, resent);
    if GoesOn(c, turns(t), attempt, resent, sleeps(t)) {
      var next := NextVisit(turns, t, attempt, resent);
      TakenAreAttempts(c, turns, sleeps, t + 1, next.attempt, next.resent);
    }
  }

  /** A turn is followed by another if and only if its failure may be repeated: cut by a sleep with resends
      left, or with attempts left, cut or not final, a wait that a timer takes, and a wait that ends. */
  lemma {:induction false} FollowedIffGoesOn(c: Context, turns: nat -> Turn, sleeps: nat -> SleepEnd, t: nat,
      attempt: nat, resent: nat, k: nat)
    requires 1 <= attempt <= c.maximumRetries + 1 && resent <= MAXIMUM_SUSPEND_RESENDS
    requires k < |Taken(c, turns, sleeps, t, attempt, resent)|
    ensures var taken := Taken(c, turns, sleeps, t, attempt, resent);
            var v := taken[k];
            && (k + 1 < |taken| <==> GoesOn(c, turns(v.t), v.attempt, v.resent, sleeps(v.t)))
            && (k + 1 < |taken| ==> taken[k + 1] == NextVisit(turns, v.t, v.attempt, v.resent))
    decreases c.maximumRetries + 1 - attempt + MAXIMUM_SUSPEND_RESENDS - resent
  {
    hide GoesOn, Uncounted, Taken;
    TakenUnfolds(c, turns, sleeps, t, attempt, resent);
    if GoesOn(c, turns(t), attempt, resent, sleeps(t)) {
      var next := NextVisit(turns, t, attempt, resent);
      TakenUnfolds(c, turns, sleeps, t + 1, next.attempt, next.resent);
      if k > 0 {
        FollowedIffGoesOn(c, turns, sleeps, t + 1, next.attempt, next.resent, k - 1);
      }
    }
  }

  /** How the last turn of an invocation ends it. */
  function EndOf(c: Context, turn: Turn, attempt: nat, resent: nat, sleep: SleepEnd, slept: Option<Suspend>): Result {
    if Succeeds(turn) then Returned
    else if !Attempts(turn) then Unattempted(turn)
    else if Counted(c, turn, attempt, resent) then
      if !HasDelay(ErrorOf(turn)) then Threw(InvalidTimerDelay)
      else Failed(if sleep == Aborted then CANCELLED else Other)
    else if ErrorOf(turn).Transport? && ErrorOf(turn).code == Quota then UsageLimit
    else if Cut(turn) && slept.Some? then HostSuspended(slept.value)
    else if ErrorOf(turn).Transport? && ErrorOf(turn).retryable && ErrorOf(turn).code == Timeout && !c.retryTimeouts
    then TimeLimit
    else Failed(ErrorOf(turn))
  }

  lemma LastTurnEndsIt(c: Context, turns: nat -> Turn, sleeps: nat -> SleepEnd, t: nat, attempt: nat, resent: nat,
      slept: Option<Suspend>, log: seq<Action>)
    requires 1 <= attempt <= c.maximumRetries + 1 && resent <= MAXIMUM_SUSPEND_RESENDS
    requires Legal(c, TurnsOf(c, turns)) && !GoesOn(c, turns(t), attempt, resent, sleeps(t))
    ensures InvokeFrom(c, TurnsOf(c, turns), sleeps, t, attempt, resent, slept, log)
            == (EndOf(c, turns(t), attempt, resent, sleeps(t), Merge(slept, CutBy(turns(t)))),
                log + TurnOf(c, turns(t), attempt, resent).0)
  {
    hide TurnOf, Legal, RetryDelay, ErrorOf, Merge, Final, SleepExplains, Unattempted, Span;
    SpanIsTight(turns(t).suspends);
    TurnEnds(c, turns(t), attempt, resent);
  }

  lemma NextTurnFollows(c: Context, turns: nat -> Turn, sleeps: nat -> SleepEnd, t: nat, attempt: nat, resent: nat,
      slept: Option<Suspend>, log: seq<Action>)
    requires 1 <= attempt <= c.maximumRetries + 1 && resent <= MAXIMUM_SUSPEND_RESENDS
    requires Legal(c, TurnsOf(c, turns)) && GoesOn(c, turns(t), attempt, resent, sleeps(t))
    ensures var (acts, end) := TurnOf(c, turns(t), attempt, resent);
            var more := Merge(slept, CutBy(turns(t)));
            if Uncounted(turns(t), resent) then
              && end.Resend?
              && InvokeFrom(c, TurnsOf(c, turns), sleeps, t, attempt, resent, slept, log)
                 == InvokeFrom(c, TurnsOf(c, turns), sleeps, t + 1, attempt, resent + 1, more, log + acts)
            else
              && end.Retry? && attempt <= c.maximumRetries
              && InvokeFrom(c, TurnsOf(c, turns), sleeps, t, attempt, resent, slept, log)
                 == InvokeFrom(c, TurnsOf(c, turns), sleeps, t + 1, attempt + 1, resent, more,
                               log + acts + [Sleep(end.delay)])
  {
    hide TurnOf, Legal, RetryDelay, CutBy, ErrorOf, Merge, Final;
    TurnEnds(c, turns(t), attempt, resent);
  }

  /**
   * An invocation takes exactly the turns their environments demand, does what each of them does in order, and ends as
   * the last one says. In particular it returns if and only if the last turn's send, record and saving all succeeded.
   */
  lemma {:induction false} InvokingTakesItsTurns(c: Context, turns: nat -> Turn, sleeps: nat -> SleepEnd, t: nat,
      attempt: nat, resent: nat, slept: Option<Suspend>, log: seq<Action>)
    requires 1 <= attempt <= c.maximumRetries + 1 && resent <= MAXIMUM_SUSPEND_RESENDS
    requires Legal(c, TurnsOf(c, turns))
    ensures var taken := Taken(c, turns, sleeps, t, attempt, resent);
            && taken != [] && (forall i :: 0 <= i < |taken| ==> taken[i].attempt >= 1)
            && var last := taken[|taken| - 1];
               InvokeFrom(c, TurnsOf(c, turns), sleeps, t, attempt, resent, slept, log)
               == (EndOf(c, turns(last.t), last.attempt, last.resent, sleeps(last.t),
                         SleptThrough(slept, turns, taken)),
                   log + Joined(c, turns, taken))
    decreases c.maximumRetries + 1 - attempt + MAXIMUM_SUSPEND_RESENDS - resent
  {
    hide TurnOf, Legal, EndOf, InvokeFrom, CutBy, Merge, GoesOn, Uncounted, Taken;
    TakenAreAttempts(c, turns, sleeps, t, attempt, resent);
    TakenUnfolds(c, turns, sleeps, t, attempt, resent);
    var taken := Taken(c, turns, sleeps, t, attempt, resent);
    var (acts, end) := TurnOf(c, turns(t), attempt, resent);
    var more := Merge(slept, CutBy(turns(t)));
    if !GoesOn(c, turns(t), attempt, resent, sleeps(t)) {
      LastTurnEndsIt(c, turns, sleeps, t, attempt, resent, slept, log);
      assert SleptThrough(slept, turns, taken) == SleptThrough(more, turns, taken[1..]) == more;
      assert log + Joined(c, turns, taken) == log + acts;
    } else {
      NextTurnFollows(c, turns, sleeps, t, attempt, resent, slept, log);
      var next := NextVisit(turns, t, attempt, resent);
      TakenAreAttempts(c, turns, sleeps, t + 1, next.attempt, next.resent);
      var waits := if next.attempt > attempt then [Sleep(end.delay)] else [];
      assert log + acts + [] == log + acts;
      InvokingTakesItsTurns(c, turns, sleeps, t + 1, next.attempt, next.resent, more, log + acts + waits);
      assert Joined(c, turns, taken) == acts + waits + Joined(c, turns, taken[1..]);
      assert log + acts + waits + Joined(c, turns, taken[1..]) == log + Joined(c, turns, taken);
    }
  }

  function Sent(turns: nat -> Turn, taken: seq<Visit>): nat
    decreases |taken|
  {
    if taken == [] then 0 else (if Dispatches(turns(taken[0].t)) then 1 else 0) + Sent(turns, taken[1..])
  }

  lemma TurnSendsIfDispatched(c: Context, turn: Turn, attempt: nat, resent: nat)
    requires attempt >= 1
    ensures CountOf(TurnOf(c, turn, attempt, resent).0, Send) == if Dispatches(turn) then 1 else 0
  {
    hide TurnOf, RetryDelay, ErrorOf, CutBy, Doing, CountOf;
    TurnDoes(c, turn, attempt, resent);
    var fail := if Fails(turn) then [Fail(ErrorOf(turn), CutBy(turn))] else [];
    TailCountsNothing(Doing(turn), fail, Freeing(c, turn), Blocking(c, turn, attempt, resent),
        Once(ReleaseLease, Leases(turn)), Send);
    CountSmall(Reserve, TakeLease, Send, RecordUsage, Send);
    DoingIs(turn);
  }

  lemma DoingIs(turn: Turn)
    ensures Doing(turn) == if !Attempts(turn) then [] else if !Leases(turn) then [Reserve]
                           else if !Dispatches(turn) then [Reserve, TakeLease]
                           else if !Records(turn) then [Reserve, TakeLease, Send]
                           else [Reserve, TakeLease, Send, RecordUsage]
  {
  }

  /** The call is sent once for each turn taken that came to dispatch it. */
  lemma {:induction false} SendsAreTheDispatched(c: Context, turns: nat -> Turn, taken: seq<Visit>)
    requires forall i :: 0 <= i < |taken| ==> taken[i].attempt >= 1
    ensures CountOf(Joined(c, turns, taken), Send) == Sent(turns, taken)
    decreases |taken|
  {
    hide TurnOf, Dispatches;
    if taken != [] {
      var v := taken[0];
      var (acts, end) := TurnOf(c, turns(v.t), v.attempt, v.resent);
      var waits := if |taken| > 1 && taken[1].attempt > v.attempt && end.Retry? then [Sleep(end.delay)] else [];
      TurnSendsIfDispatched(c, turns(v.t), v.attempt, v.resent);
      SendsAreTheDispatched(c, turns, taken[1..]);
      CountConcat(acts, waits, Send);
      NoneCounted(waits, Send);
      CountConcat(acts + waits, Joined(c, turns, taken[1..]), Send);
      assert Joined(c, turns, taken) == acts + waits + Joined(c, turns, taken[1..]);
    }
  }

  /** The sleep named reaches from the first suspend that cut an attempt to the last. */
  lemma {:induction false} SleptFromFirstToLast(slept: Option<Suspend>, turns: nat -> Turn, taken: seq<Visit>)
    ensures var all := SleptThrough(slept, turns, taken);
            && (all.None? <==> slept.None? && forall v :: v in taken ==> CutBy(turns(v.t)).None?)
            && (slept.Some? ==> all.value.from <= slept.value.from && slept.value.to <= all.value.to)
            && (forall v :: v in taken && CutBy(turns(v.t)).Some? ==>
                 all.value.from <= CutBy(turns(v.t)).value.from && CutBy(turns(v.t)).value.to <= all.value.to)
    ensures var all := SleptThrough(slept, turns, taken);
            all.Some? ==>
              && (Starts(slept, all.value) || exists v :: v in taken && Starts(CutBy(turns(v.t)), all.value))
              && (Ends(slept, all.value) || exists v :: v in taken && Ends(CutBy(turns(v.t)), all.value))
    decreases |taken|
  {
    hide CutBy;
    if taken != [] {
      SleptFromFirstToLast(Merge(slept, CutBy(turns(taken[0].t))), turns, taken[1..]);
      assert taken == [taken[0]] + taken[1..];
    }
  }

  predicate Starts(span: Option<Suspend>, whole: Suspend) { span.Some? && span.value.from == whole.from }
  predicate Ends(span: Option<Suspend>, whole: Suspend) { span.Some? && span.value.to == whole.to }

  /** The loop of `invoke` over any legal turns. */
  method InvokeLoop(c: Context, step: Turns, sleeps: nat -> SleepEnd) returns (result: Result, log: seq<Action>)
    requires Legal(c, step)
    ensures (result, log) == InvokeFrom(c, step, sleeps, 0, 1, 0, None, [])
  {
    var lastError := Other;
    var attempt, resent, t := 1, 0, 0;
    var slept, cut := None, false;
    log := [];
    while attempt <= c.maximumRetries + 1
      invariant 1 <= attempt <= c.maximumRetries + 1 && resent <= MAXIMUM_SUSPEND_RESENDS
      invariant InvokeFrom(c, step, sleeps, t, attempt, resent, slept, log)
                == InvokeFrom(c, step, sleeps, 0, 1, 0, None, [])
      decreases c.maximumRetries + 2 - attempt + MAXIMUM_SUSPEND_RESENDS - resent
    {
      var (acts, end) := step(t, attempt, resent);
      log := log + acts;
      match end {
        case Finish(outcome) =>
          return outcome, log;
        case Resend(span) =>
          slept, cut := Merge(slept, Some(span)), true;
          resent, t := resent + 1, t + 1;
        case GiveUp(error, span) =>
          lastError, cut, slept := error, span.Some?, Merge(slept, span);
          break;
        case Retry(error, span, delay) =>
          lastError, cut, slept := error, span.Some?, Merge(slept, span);
          if sleeps(t) != Woke {
            lastError, cut := SleepError(sleeps(t)), false;
            break;
          }
          log := log + [Sleep(delay)];
          attempt, t := attempt + 1, t + 1;
      }
    }
    result := Classify(c, lastError, cut, slept);
  }

  /** `invoke`, whatever each turn's environment answers. */
  method Invoke(c: Context, turns: nat -> Turn, sleeps: nat -> SleepEnd) returns (result: Result, log: seq<Action>)
    ensures Legal(c, TurnsOf(c, turns)) && (result, log) == InvokeFrom(c, TurnsOf(c, turns), sleeps, 0, 1, 0, None, [])
    ensures ProgressOf(log, c).phase != Broken && HoldsNoLease(ProgressOf(log, c).phase)
    ensures CountOf(log, TakeLease) == CountOf(log, ReleaseLease)
    ensures CountOf(log, Send) <= c.maximumRetries + 1 + MAXIMUM_SUSPEND_RESENDS
    ensures EndsTruly(result, LastFailure(log), c)
    ensures var taken := Taken(c, turns, sleeps, 0, 1, 0);
            && taken != [] && (forall i :: 0 <= i < |taken| ==> taken[i].attempt >= 1)
            && var last := taken[|taken| - 1];
               && result == EndOf(c, turns(last.t), last.attempt, last.resent, sleeps(last.t),
                                  SleptThrough(None, turns, taken))
               && (result == Returned <==> Succeeds(turns(last.t)))
               && log == Joined(c, turns, taken) && CountOf(log, Send) == Sent(turns, taken)
  {
    hide TurnOf, InvokeFrom, Taken, Joined, SleptThrough;
    TurnsAreLegal(c, turns);
    result, log := InvokeLoop(c, TurnsOf(c, turns), sleeps);
    EndsAsItsLastFailureSays(c, TurnsOf(c, turns), sleeps, 0, 1, 0, None, []);
    InvokingIsSafe(c, TurnsOf(c, turns), sleeps, 0, 1, 0, None, []);
    InvokingTakesItsTurns(c, turns, sleeps, 0, 1, 0, None, []);
    SendsAreTheDispatched(c, turns, Taken(c, turns, sleeps, 0, 1, 0));
  }
}
