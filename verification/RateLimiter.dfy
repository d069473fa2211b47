/** The provider scheduler: a sliding-window rate limit, a concurrency limit and a retry-after block. The
    code between two awaits is one step; times are whole milliseconds of a clock that never goes back. */
module RateLimiter {
  import opened Options

  const WINDOW_MS := 60_000
  const MAX_TIMER_DELAY_MS := 2_147_483_647

  datatype Policy = Policy(rpm: nat, tpm: nat, maxConcurrent: nat) {
    /** `validatePolicy`. */
    predicate Valid() { rpm >= 1 && tpm >= 1 && maxConcurrent >= 1 }
  }

  datatype Admission = Admission(at: int, tokens: nat)

  /** One provider's state; `live` holds the leases not yet released. */
  datatype State = State(active: int, blockedUntil: int, admissions: seq<Admission>, waiters: set<nat>, live: set<nat>,
      issued: nat)

  /** What an attempt comes to: a lease, a wait on a timer (if any) or a release, or a request no wait can admit. */
  datatype Reply = Admitted(lease: nat) | Wait(timer: Option<int>) | TooLarge

  datatype Event = Try(now: int, tokens: nat, waiter: nat) | Release(lease: nat)
      | RetryAfter(now: int, milliseconds: nat)

  const INITIAL := State(0, 0, [], {}, {}, 0)

  // ----- The steps

  /** The admissions still in the window at `now`. */
  function Prune(admissions: seq<Admission>, now: int): seq<Admission> {
    if admissions == [] then []
    else
      var last := admissions[|admissions| - 1];
      Prune(admissions[..|admissions| - 1], now) + if last.at > now - WINDOW_MS then [last] else []
  }

  function Tokens(admissions: seq<Admission>): nat {
    if admissions == [] then 0 else Tokens(admissions[..|admissions| - 1]) + admissions[|admissions| - 1].tokens
  }

  predicate Admissible(p: Policy, s: State, now: int, tokens: nat) {
    var current := Prune(s.admissions, now);
    now >= s.blockedUntil && s.active < p.maxConcurrent && |current| < p.rpm && Tokens(current) + tokens <= p.tpm
  }

  function Max(a: int, b: int): int { if a < b then b else a }
  function Min(a: int, b: int): int { if a < b then a else b }

  /** The shortest timer a refused attempt sets: to the end of
      the block, or until the first admission leaves the window. */
  function Timer(p: Policy, s: State, now: int, tokens: nat): Option<int> {
    var current := Prune(s.admissions, now);
    var block := if now < s.blockedUntil then Some(s.blockedUntil - now) else None;
    var window := if (|current| >= p.rpm || Tokens(current) + tokens > p.tpm) && current != []
                  then Some(Max(1, current[0].at + WINDOW_MS - now)) else None;
    if block.None? then window else if window.None? then block else Some(Min(block.value, window.value))
  }

  /** One turn of the loop in `acquire`, by the waiter `waiter`. */
  function Attempt(p: Policy, s: State, now: int, tokens: nat, waiter: nat): (State, Reply) {
    if tokens > p.tpm then (s, TooLarge)
    else
      var pruned := s.(admissions := Prune(s.admissions, now), waiters := s.waiters - {waiter});
      if Admissible(p, s, now, tokens) then
        (pruned.(active := s.active + 1, admissions := pruned.admissions + [Admission(now, tokens)],
                 live := s.live + {s.issued}, issued := s.issued + 1), Admitted(s.issued))
      else
        (pruned.(waiters := pruned.waiters + {waiter}), Wait(Timer(p, s, now, tokens)))
  }

  /** `release` of a lease: once only, and it wakes every waiter. */
  function Released(s: State, lease: nat): State {
    if lease !in s.live then s else s.(active := s.active - 1, live := s.live - {lease}, waiters := {})
  }

  /** `respectRetryAfter`. */
  function Blocked(s: State, now: int, milliseconds: nat): State {
    s.(blockedUntil := Max(s.blockedUntil, now + milliseconds), waiters := {})
  }

  // ----- Runs

  /** A run: the state it reaches, every admission it made, and the latest clock reading. */
  datatype Run = Run(state: State, history: seq<Admission>, clock: int)

  function Step(p: Policy, run: Run, e: Event): Run {
    match e
    case Try(now, tokens, waiter) =>
      var (state, reply) := Attempt(p, run.state, now, tokens, waiter);
      Run(state, run.history + if reply.Admitted? then [Admission(now, tokens)] else [], now)
    case Release(lease) => run.(state := Released(run.state, lease))
    case RetryAfter(now, milliseconds) => Run(Blocked(run.state, now, milliseconds), run.history, now)
  }

  function RunOf(p: Policy, events: seq<Event>, start: int): Run {
    if events == [] then Run(INITIAL, [], start)
    else Step(p, RunOf(p, events[..|events| - 1], start), events[|events| - 1])
  }

  /** No event reads an earlier time than one before it. */
  ghost predicate ClockNeverGoesBack(events: seq<Event>, start: int) {
    forall k {:trigger events[k]} :: 0 <= k < |events| ==>
      match events[k]
      case Try(now, _, _) => now >= ClockAt(events[..k], start)
      case Release(_) => true
      case RetryAfter(now, _) => now >= ClockAt(events[..k], start)
  }

  function ClockAt(events: seq<Event>, start: int): int {
    if events == [] then start
    else
      match events[|events| - 1]
      case Try(now, _, _) => now
      case Release(_) => ClockAt(events[..|events| - 1], start)
      case RetryAfter(now, _) => now
  }

  // ----- Rate safety

  /** The admissions of the 60 seconds that end at `t`. */
  function InWindow(history: seq<Admission>, t: int): seq<Admission> {
    if history == [] then []
    else
      var last := history[|history| - 1];
      InWindow(history[..|history| - 1], t) + if t - WINDOW_MS < last.at <= t then [last] else []
  }

  /** At every instant, the 60 seconds before it hold at most `rpm` admissions and `tpm` tokens. */
  ghost predicate RateSafe(p: Policy, history: seq<Admission>) {
    forall t :: |InWindow(history, t)| <= p.rpm && Tokens(InWindow(history, t)) <= p.tpm
  }

  /** What every step keeps; `at` is when the admissions were last pruned. */
  ghost predicate Invariant(p: Policy, run: Run, at: int) {
    var s := run.state;
    && RateSafe(p, run.history)
    && s.admissions == Prune(run.history, at) && at <= run.clock
    && (forall i :: 0 <= i < |run.history| ==> run.history[i].at <= run.clock)
    && s.active == |s.live| <= p.maxConcurrent
    && (forall lease :: lease in s.live ==> lease < s.issued)
  }

  lemma {:induction false} PruneTwice(admissions: seq<Admission>, t: int, now: int)
    requires t <= now
    ensures Prune(Prune(admissions, t), now) == Prune(admissions, now)
  {
    if admissions != [] {
      var n := |admissions| - 1;
      PruneTwice(admissions[..n], t, now);
      if admissions[n].at > t - WINDOW_MS {
        assert Prune(admissions, t)[..|Prune(admissions, t)| - 1] == Prune(admissions[..n], t);
      } else {
        assert Prune(admissions, t) == Prune(admissions[..n], t);
        assert Prune(admissions, now) == Prune(admissions[..n], now);
      }
    }
  }

  /** A window that ends at or after `now` holds no more of the past than pruning at `now` keeps. */
  lemma {:induction false} LaterWindowHoldsLess(history: seq<Admission>, now: int, t: int)
    requires now <= t
    ensures |InWindow(history, t)| <= |Prune(history, now)|
    ensures Tokens(InWindow(history, t)) <= Tokens(Prune(history, now))
  {
    if history != [] {
      var n := |history| - 1;
      LaterWindowHoldsLess(history[..n], now, t);
      TokensAppend(InWindow(history[..n], t), history[n]);
      TokensAppend(Prune(history[..n], now), history[n]);
      assert InWindow(history[..n], t) + [] == InWindow(history[..n], t);
      assert Prune(history[..n], now) + [] == Prune(history[..n], now);
    }
  }

  lemma TokensAppend(admissions: seq<Admission>, a: Admission)
    ensures Tokens(admissions + [a]) == Tokens(admissions) + a.tokens
  {
    assert (admissions + [a])[..|admissions|] == admissions;
  }

  lemma InWindowAppend(history: seq<Admission>, a: Admission, t: int)
    ensures InWindow(history + [a], t) == InWindow(history, t) + if t - WINDOW_MS < a.at <= t then [a] else []
  {
    assert (history + [a])[..|history|] == history;
  }

  lemma PruneAppend(history: seq<Admission>, a: Admission, now: int)
    ensures Prune(history + [a], now) == Prune(history, now) + if a.at > now - WINDOW_MS then [a] else []
  {
    assert (history + [a])[..|history|] == history;
  }

  /** An admission the pruned window has room for keeps every window safe. */
  lemma AdmissionKeepsRate(p: Policy, history: seq<Admission>, now: int, tokens: nat)
    requires RateSafe(p, history)
    requires |Prune(history, now)| < p.rpm && Tokens(Prune(history, now)) + tokens <= p.tpm
    ensures RateSafe(p, history + [Admission(now, tokens)])
  {
    var a := Admission(now, tokens);
    forall t ensures |InWindow(history + [a], t)| <= p.rpm && Tokens(InWindow(history + [a], t)) <= p.tpm {
      InWindowAppend(history, a, t);
      TokensAppend(InWindow(history, t), a);
      assert !(t - WINDOW_MS < now <= t) ==> InWindow(history + [a], t) == InWindow(history, t);
      assert |InWindow(history, t)| <= p.rpm && Tokens(InWindow(history, t)) <= p.tpm;
      if now <= t {
        LaterWindowHoldsLess(history, now, t);
      }
    }
  }

  lemma TryKeepsInvariant(p: Policy, run: Run, at: int, now: int, tokens: nat, waiter: nat)
    requires Invariant(p, run, at) && run.clock <= now
    ensures exists at' :: Invariant(p, Step(p, run, Try(now, tokens, waiter)), at')
  {
    var s := run.state;
    var next := Step(p, run, Try(now, tokens, waiter));
    var (state, reply) := Attempt(p, s, now, tokens, waiter);
    PruneTwice(run.history, at, now);
    if reply.Admitted? {
      var a := Admission(now, tokens);
      AdmissionKeepsRate(p, run.history, now, tokens);
      PruneAppend(run.history, a, now);
      assert s.issued !in s.live;
      assert Invariant(p, next, now);
    } else {
      assert next.history == run.history;
      assert Invariant(p, next, if reply.TooLarge? then at else now);
    }
  }

  lemma StepKeepsInvariant(p: Policy, run: Run, at: int, e: Event)
    requires Invariant(p, run, at)
    requires match e
             case Try(now, _, _) => run.clock <= now
             case Release(_) => true
             case RetryAfter(now, _) => run.clock <= now
    ensures exists at' :: Invariant(p, Step(p, run, e), at')
  {
    match e {
      case Try(now, tokens, waiter) => TryKeepsInvariant(p, run, at, now, tokens, waiter);
      case Release(lease) => assert Invariant(p, Step(p, run, e), at);
      case RetryAfter(_, _) => assert Invariant(p, Step(p, run, e), at);
    }
  }

  lemma {:induction false} RunKeepsInvariant(p: Policy, events: seq<Event>, start: int)
    requires ClockNeverGoesBack(events, start)
    ensures RunOf(p, events, start).clock == ClockAt(events, start)
    ensures exists at :: Invariant(p, RunOf(p, events, start), at)
  {
    if events == [] {
      assert Invariant(p, RunOf(p, events, start), start) by {
        assert forall t :: InWindow([], t) == [];
      }
    } else {
      var n := |events| - 1;
      assert ClockNeverGoesBack(events[..n], start) by {
        assert forall k :: 0 <= k < n ==> events[..n][k] == events[k] && events[..n][..k] == events[..k];
      }
      RunKeepsInvariant(p, events[..n], start);
      var at :| Invariant(p, RunOf(p, events[..n], start), at);
      StepKeepsInvariant(p, RunOf(p, events[..n], start), at, events[n]);
    }
  }

  /** Rate safety over whole histories: whatever acquires, releases and retry-after calls came, in any order, no
      60 seconds hold more than `rpm` admissions or `tpm` tokens, and live leases keep within `maxConcurrent`. */
  lemma RateSafety(p: Policy, events: seq<Event>, start: int)
    requires ClockNeverGoesBack(events, start)
    ensures RateSafe(p, RunOf(p, events, start).history)
    ensures RunOf(p, events, start).state.active == |RunOf(p, events, start).state.live| <= p.maxConcurrent
  {
    RunKeepsInvariant(p, events, start);
  }

  // ----- Blocks

  lemma {:induction false} BlockRemains(p: Policy, events: seq<Event>, start: int, i: nat)
    requires i < |events| && events[i].RetryAfter?
    ensures RunOf(p, events, start).state.blockedUntil >= events[i].now + events[i].milliseconds
  {
    var n := |events| - 1;
    if i < n {
      BlockRemains(p, events[..n], start, i);
    }
  }

  /** Nothing is admitted before every block set so far has expired. */
  lemma NothingAdmittedWhileBlocked(p: Policy, events: seq<Event>, start: int, i: nat, now: int, tokens: nat,
      waiter: nat)
    requires i < |events| && events[i].RetryAfter?
    requires Attempt(p, RunOf(p, events, start).state, now, tokens, waiter).1.Admitted?
    ensures now >= events[i].now + events[i].milliseconds
  {
    BlockRemains(p, events, start, i);
  }

  /** Releasing a lease again changes nothing, so repeated releases never free a slot twice. */
  lemma ReleaseIsIdempotent(s: State, lease: nat)
    ensures Released(Released(s, lease), lease) == Released(s, lease)
  {
  }

  // ----- Waiting

  lemma {:induction false} TokensEmpty(admissions: seq<Admission>)
    ensures Tokens(admissions) > 0 ==> admissions != []
  {
  }

  /** A refused attempt waits on a timer that is positive, or on
      a lease some holder will release; the release wakes it. */
  lemma NeverWaitsForNothing(p: Policy, run: Run, at: int, now: int, tokens: nat, waiter: nat)
    requires p.Valid() && Invariant(p, run, at)
    requires Attempt(p, run.state, now, tokens, waiter).1.Wait?
    ensures var (state, reply) := Attempt(p, run.state, now, tokens, waiter);
            && waiter in state.waiters
            && (reply.timer.Some? ==> reply.timer.value > 0)
            && (reply.timer.None? ==> state.live != {} && forall lease :: lease in state.live ==>
                waiter !in Released(state, lease).waiters)
  {
    var s := run.state;
    TokensEmpty(Prune(s.admissions, now));
    if Timer(p, s, now, tokens).None? {
      assert s.active >= p.maxConcurrent;
      assert |s.live| > 0;
    }
  }

  // ----- Leases

  /** The `k`-th event is an attempt that was given the lease. */
  ghost predicate Gives(p: Policy, events: seq<Event>, start: int, k: nat, lease: nat) {
    && k < |events| && events[k].Try?
    && Attempt(p, RunOf(p, events[..k], start).state, events[k].now, events[k].tokens, events[k].waiter).1
       == Admitted(lease)
  }

  predicate ReleasedAfter(events: seq<Event>, k: nat, lease: nat) {
    exists j :: k < j < |events| && events[j] == Release(lease)
  }

  /** The lease was given and not released since. */
  ghost predicate Held(p: Policy, events: seq<Event>, start: int, lease: nat) {
    exists k: nat :: Gives(p, events, start, k, lease) && !ReleasedAfter(events, k, lease)
  }

  lemma GivesSooner(p: Policy, events: seq<Event>, start: int, k: nat, lease: nat)
    requires k + 1 < |events|
    ensures Gives(p, events[..|events| - 1], start, k, lease) <==> Gives(p, events, start, k, lease)
    ensures ReleasedAfter(events, k, lease) <==>
            ReleasedAfter(events[..|events| - 1], k, lease) || events[|events| - 1] == Release(lease)
  {
    hide Attempt, RunOf;
    var front := events[..|events| - 1];
    assert front[..k] == events[..k] && front[k] == events[k];
    if ReleasedAfter(front, k, lease) {
      var j :| k < j < |front| && front[j] == Release(lease);
      assert events[j] == Release(lease);
    }
    if ReleasedAfter(events, k, lease) && events[|events| - 1] != Release(lease) {
      var j :| k < j < |events| && events[j] == Release(lease);
      assert front[j] == Release(lease);
    }
  }

  /** Held after one more event: given by it, or held before and not released by it. */
  lemma HeldStep(p: Policy, events: seq<Event>, start: int, lease: nat)
    requires events != []
    ensures Held(p, events, start, lease) <==>
            || Gives(p, events, start, |events| - 1, lease)
            || (Held(p, events[..|events| - 1], start, lease) && events[|events| - 1] != Release(lease))
  {
    hide Gives, ReleasedAfter;
    var n := |events| - 1;
    forall k: nat ensures k < n ==>
      (Gives(p, events[..n], start, k, lease) <==> Gives(p, events, start, k, lease))
      && (ReleasedAfter(events, k, lease) <==>
          ReleasedAfter(events[..n], k, lease) || events[n] == Release(lease)) {
      if k < n { GivesSooner(p, events, start, k, lease); }
    }
    GivenIsAnEvent(p, events, start, lease);
    GivenIsAnEvent(p, events[..n], start, lease);
    assert !ReleasedAfter(events, n, lease) by { NothingAfterTheLast(events, lease); }
  }

  lemma GivenIsAnEvent(p: Policy, events: seq<Event>, start: int, lease: nat)
    ensures forall k: nat :: Gives(p, events, start, k, lease) ==> k < |events|
  {
    hide Attempt, RunOf;
  }

  lemma NothingAfterTheLast(events: seq<Event>, lease: nat)
    ensures forall k: nat :: k + 1 >= |events| ==> !ReleasedAfter(events, k, lease)
  {
  }

  /** The live leases are exactly those given and not released since. */
  lemma {:induction false} LiveLeasesAreTheHeld(p: Policy, events: seq<Event>, start: int, lease: nat)
    ensures lease in RunOf(p, events, start).state.live <==> Held(p, events, start, lease)
  {
    hide Held, Prune, Tokens, Admissible, Timer, Max;
    if events == [] {
      assert !Held(p, events, start, lease) by { NothingHeld(p, start, lease); }
    } else {
      LiveLeasesAreTheHeld(p, events[..|events| - 1], start, lease);
      HeldStep(p, events, start, lease);
    }
  }

  lemma NothingHeld(p: Policy, start: int, lease: nat)
    ensures !Held(p, [], start, lease)
  {
  }

  lemma {:induction false} IssuedGrows(p: Policy, events: seq<Event>, start: int, k: nat, lease: nat)
    requires Gives(p, events, start, k, lease)
    ensures lease < RunOf(p, events, start).state.issued
  {
    hide Prune, Tokens, Admissible, Timer, Max;
    var n := |events| - 1;
    if k < n {
      GivesSooner(p, events, start, k, lease);
      IssuedGrows(p, events[..n], start, k, lease);
    }
  }

  /** No lease is given twice. */
  lemma EachLeaseIsGivenOnce(p: Policy, events: seq<Event>, start: int, i: nat, k: nat, lease: nat)
    requires Gives(p, events, start, i, lease) && Gives(p, events, start, k, lease)
    ensures i == k
  {
    hide Prune, Tokens, Admissible, Timer, Max, RunOf;
    var first, second := if i < k then i else k, if i < k then k else i;
    if first < second {
      GivesInPrefix(p, events, start, first, second, lease);
      IssuedGrows(p, events[..second], start, first, lease);
    }
  }

  lemma GivesInPrefix(p: Policy, events: seq<Event>, start: int, k: nat, n: nat, lease: nat)
    requires k < n <= |events| && Gives(p, events, start, k, lease)
    ensures Gives(p, events[..n], start, k, lease)
  {
    hide Attempt, RunOf;
    assert events[..n][..k] == events[..k];
  }

  /** Releasing a held lease frees its slot, and no other. */
  lemma ReleaseFreesItsSlot(p: Policy, events: seq<Event>, start: int, lease: nat)
    requires ClockNeverGoesBack(events, start) && Held(p, events, start, lease)
    ensures var s := RunOf(p, events, start).state;
            var after := Released(s, lease);
            && after.active == s.active - 1 && after.live == s.live - {lease}
            && after.admissions == s.admissions && after.blockedUntil == s.blockedUntil && after.waiters == {}
    ensures !Held(p, events + [Release(lease)], start, lease)
  {
    hide RunOf, Held, ClockNeverGoesBack;
    LiveLeasesAreTheHeld(p, events, start, lease);
    LiveLeasesAreTheHeld(p, events + [Release(lease)], start, lease);
    assert RunOf(p, events + [Release(lease)], start).state == Released(RunOf(p, events, start).state, lease) by {
      RunReleases(p, events, start, lease);
    }
  }

  lemma RunReleases(p: Policy, events: seq<Event>, start: int, lease: nat)
    ensures RunOf(p, events + [Release(lease)], start).state == Released(RunOf(p, events, start).state, lease)
  {
    assert (events + [Release(lease)])[..|events|] == events;
  }

  // ----- When an attempt is admitted

  /** Every block asked for so far has passed. */
  predicate Unblocked(events: seq<Event>, now: int) {
    forall i :: 0 <= i < |events| && events[i].RetryAfter? ==> events[i].now + events[i].milliseconds <= now
  }

  /** A block lasts as long as it was asked for, and no longer. */
  lemma {:induction false} BlockedAsLongAsAsked(p: Policy, events: seq<Event>, start: int, now: int)
    ensures now >= RunOf(p, events, start).state.blockedUntil <==> now >= 0 && Unblocked(events, now)
  {
    hide Prune, Tokens, Admissible, Timer;
    if events != [] {
      var n := |events| - 1;
      BlockedAsLongAsAsked(p, events[..n], start, now);
      assert forall i :: 0 <= i < n ==> events[..n][i] == events[i];
    }
  }

  lemma {:induction false} RecentAreInTheWindow(history: seq<Admission>, now: int)
    requires forall i :: 0 <= i < |history| ==> history[i].at <= now
    ensures Prune(history, now) == InWindow(history, now)
  {
    if history != [] {
      RecentAreInTheWindow(history[..|history| - 1], now);
    }
  }

  /**
   * In every run, an attempt is admitted if and only if every block asked for has passed, a slot is free, and the last
   * 60 seconds leave room for one more admission and its tokens; only one larger than the whole limit is turned away.
   */
  lemma AdmittedIffRoom(p: Policy, events: seq<Event>, start: int, now: int, tokens: nat, waiter: nat)
    requires ClockNeverGoesBack(events, start) && ClockAt(events, start) <= now
    ensures var run := RunOf(p, events, start);
            var recent := InWindow(run.history, now);
            Attempt(p, run.state, now, tokens, waiter).1.Admitted? <==>
            && now >= 0 && Unblocked(events, now) && |run.state.live| < p.maxConcurrent
            && |recent| < p.rpm && Tokens(recent) + tokens <= p.tpm
    ensures Attempt(p, RunOf(p, events, start).state, now, tokens, waiter).1.TooLarge? <==> tokens > p.tpm
  {
    hide RunOf, ClockNeverGoesBack, Unblocked, Prune, InWindow, Tokens, RateSafe, Timer;
    var run := RunOf(p, events, start);
    RunKeepsInvariant(p, events, start);
    var at :| Invariant(p, run, at);
    PruneTwice(run.history, at, now);
    RecentAreInTheWindow(run.history, now);
    BlockedAsLongAsAsked(p, events, start, now);
  }

  /** What the history of a run holds is what it admitted, in order. */
  ghost predicate InOrder(admissions: seq<Admission>) {
    forall i, j :: 0 <= i < j < |admissions| ==> admissions[i].at <= admissions[j].at
  }

  lemma {:induction false} PruneKeepsOrder(admissions: seq<Admission>, now: int)
    requires InOrder(admissions)
    ensures InOrder(Prune(admissions, now))
    ensures admissions != [] && Prune(admissions, now) != [] ==>
              Prune(admissions, now)[|Prune(admissions, now)| - 1].at <= admissions[|admissions| - 1].at
  {
    if admissions != [] {
      PruneKeepsOrder(admissions[..|admissions| - 1], now);
    }
  }

  lemma {:induction false} RunStaysInOrder(p: Policy, events: seq<Event>, start: int)
    requires ClockNeverGoesBack(events, start)
    ensures InOrder(RunOf(p, events, start).history)
  {
    hide Prune, Tokens, Admissible, Timer, RateSafe;
    if events != [] {
      var n := |events| - 1;
      assert ClockNeverGoesBack(events[..n], start) by {
        assert forall k :: 0 <= k < n ==> events[..n][k] == events[k] && events[..n][..k] == events[..k];
      }
      RunStaysInOrder(p, events[..n], start);
      RunKeepsInvariant(p, events[..n], start);
      assert events[n].Try? ==> events[n].now >= ClockAt(events[..n], start);
    }
  }

  lemma {:induction false} NothingLeavesBefore(admissions: seq<Admission>, now: int)
    requires forall i :: 0 <= i < |admissions| ==> admissions[i].at > now - WINDOW_MS
    ensures Prune(admissions, now) == admissions
  {
    if admissions != [] {
      NothingLeavesBefore(admissions[..|admissions| - 1], now);
    }
  }

  /** The timer is set when there is a block or the window is full, for whichever of the two ends first. */
  lemma TimerIsTheFirst(p: Policy, s: State, now: int, tokens: nat)
    ensures var timer := Timer(p, s, now, tokens);
            var current := Prune(s.admissions, now);
            var full := (|current| >= p.rpm || Tokens(current) + tokens > p.tpm) && current != [];
            && (timer.Some? <==> now < s.blockedUntil || full)
            && (now < s.blockedUntil ==> timer.value <= s.blockedUntil - now)
            && (full ==> timer.value <= 1 || timer.value <= current[0].at + WINDOW_MS - now)
            && (timer.Some? ==>
                || (now < s.blockedUntil && timer.value == s.blockedUntil - now)
                || (full && timer.value >= 1 && timer.value >= current[0].at + WINDOW_MS - now))
  {
    hide Prune, Tokens;
  }

  /** A refused attempt sleeps no longer than it must: until its timer fires, no attempt alike would be admitted. */
  lemma NeverOversleeps(p: Policy, events: seq<Event>, start: int, now: int, tokens: nat, waiter: nat, later: int)
    requires p.Valid() && ClockNeverGoesBack(events, start) && ClockAt(events, start) <= now <= later
    requires Attempt(p, RunOf(p, events, start).state, now, tokens, waiter).1.Wait?
    requires var timer := Attempt(p, RunOf(p, events, start).state, now, tokens, waiter).1.timer;
             timer.Some? ==> later < now + timer.value
    ensures var waiting := Attempt(p, RunOf(p, events, start).state, now, tokens, waiter).0;
            !Attempt(p, waiting, later, tokens, waiter).1.Admitted?
  {
    hide RunOf, ClockNeverGoesBack, RateSafe;
    var run := RunOf(p, events, start);
    RunKeepsInvariant(p, events, start);
    RunStaysInOrder(p, events, start);
    var at :| Invariant(p, run, at);
    PruneKeepsOrder(run.history, at);
    SleepsUntilRoom(p, run.state, now, tokens, waiter, later);
  }

  lemma SleepsUntilRoom(p: Policy, s: State, now: int, tokens: nat, waiter: nat, later: int)
    requires p.Valid() && InOrder(s.admissions) && now <= later
    requires Attempt(p, s, now, tokens, waiter).1.Wait?
    requires Timer(p, s, now, tokens).Some? ==> later < now + Timer(p, s, now, tokens).value
    ensures !Admissible(p, Attempt(p, s, now, tokens, waiter).0, later, tokens)
  {
    hide Prune, Tokens, InOrder;
    var current := Prune(s.admissions, now);
    TokensEmpty(current);
    if now >= s.blockedUntil && s.active < p.maxConcurrent {
      assert |current| >= p.rpm || Tokens(current) + tokens > p.tpm;
      StillInTheWindow(s, now, later);
    }
  }

  /** Until the first admission leaves the window, all the others stay. */
  lemma StillInTheWindow(s: State, now: int, later: int)
    requires InOrder(s.admissions) && now <= later && Prune(s.admissions, now) != []
    requires later < now + Max(1, Prune(s.admissions, now)[0].at + WINDOW_MS - now)
    ensures Prune(Prune(s.admissions, now), later) == Prune(s.admissions, now)
  {
    hide Prune;
    var current := Prune(s.admissions, now);
    PruneTwice(s.admissions, now, now);
    PruneKeepsOrder(s.admissions, now);
    if later > now {
      NothingLeavesBefore(current, later);
    }
  }

  // ----- A lone waiter

  /** The wakes a block still costs when every sleep is cut at the timer cap. */
  function BlockWakes(remaining: int): nat {
    if remaining <= 0 then 0 else (remaining + MAX_TIMER_DELAY_MS - 1) / MAX_TIMER_DELAY_MS
  }

  /** The wakes until a waiter with a free slot is admitted: one an admission in the window, and those of the block. */
  function Wakes(s: State, now: int): nat {
    |Prune(s.admissions, now)| + BlockWakes(s.blockedUntil - now)
  }

  lemma {:induction false} PruneShrinks(admissions: seq<Admission>, now: int, later: int)
    requires now <= later
    ensures |Prune(admissions, later)| <= |Prune(admissions, now)| <= |admissions|
    ensures Prune(admissions, now) != [] && Prune(admissions, now)[0].at <= later - WINDOW_MS ==>
              |Prune(admissions, later)| < |Prune(admissions, now)|
    ensures forall i :: 0 <= i < |Prune(admissions, now)| ==> Prune(admissions, now)[i].at > now - WINDOW_MS
  {
    if admissions != [] {
      PruneShrinks(admissions[..|admissions| - 1], now, later);
    }
  }

  lemma {:induction false} PrunedArePast(admissions: seq<Admission>, at: int, now: int)
    requires forall i :: 0 <= i < |admissions| ==> admissions[i].at <= now
    ensures forall i :: 0 <= i < |Prune(admissions, at)| ==> Prune(admissions, at)[i].at <= now
  {
    if admissions != [] {
      PrunedArePast(admissions[..|admissions| - 1], at, now);
    }
  }

  lemma BlockWakesDrop(remaining: int, slept: int)
    requires remaining > 0 && slept >= Min(remaining, MAX_TIMER_DELAY_MS)
    ensures BlockWakes(remaining - slept) < BlockWakes(remaining)
  {
  }

  lemma BlockWakesMonotone(remaining: int, slept: nat)
    ensures BlockWakes(remaining - slept) <= BlockWakes(remaining)
  {
  }

  /** With a slot free, each wake of a refused attempt brings the admission one wake nearer. */
  lemma EachWakeMakesProgress(p: Policy, s: State, now: int, tokens: nat, waiter: nat, later: int)
    requires p.Valid() && s.active < p.maxConcurrent && Attempt(p, s, now, tokens, waiter).1.Wait?
    requires forall i :: 0 <= i < |s.admissions| ==> s.admissions[i].at <= now
    requires Attempt(p, s, now, tokens, waiter).1.timer.Some? ==>
               later >= now + Min(Attempt(p, s, now, tokens, waiter).1.timer.value, MAX_TIMER_DELAY_MS)
    ensures Attempt(p, s, now, tokens, waiter).1.timer.Some? && now < later
    ensures Wakes(Attempt(p, s, now, tokens, waiter).0, later) < Wakes(s, now)
  {
    var (state, reply) := Attempt(p, s, now, tokens, waiter);
    var current := Prune(s.admissions, now);
    TokensEmpty(current);
    PruneShrinks(s.admissions, now, now);
    PrunedArePast(s.admissions, now, now);
    assert reply.timer.Some?;
    assert later > now;
    PruneTwice(s.admissions, now, later);
    PruneShrinks(s.admissions, now, later);
    var remaining := s.blockedUntil - now;
    BlockWakesMonotone(remaining, later - now);
    assert remaining - (later - now) == s.blockedUntil - later;
    if remaining > 0 && reply.timer.value == remaining {
      BlockWakesDrop(remaining, later - now);
    } else {
      assert reply.timer.value == Max(1, current[0].at + WINDOW_MS - now);
    }
  }

  /** Times of attempts in which each follows its predecessor's timer, however late it wakes. */
  ghost predicate Paced(p: Policy, s: State, times: seq<int>, tokens: nat, waiter: nat)
    decreases |times|
  {
    |times| > 1 ==>
      var (state, reply) := Attempt(p, s, times[0], tokens, waiter);
      reply.Wait? ==>
        && (reply.timer.Some? ==> times[1] >= times[0] + Min(reply.timer.value, MAX_TIMER_DELAY_MS))
        && Paced(p, state, times[1..], tokens, waiter)
  }

  /** Whether the `k`-th of the attempts is the one admitted. */
  ghost predicate AdmittedAt(p: Policy, s: State, times: seq<int>, tokens: nat, waiter: nat, k: nat)
    decreases |times|
  {
    && times != []
    && var (state, reply) := Attempt(p, s, times[0], tokens, waiter);
       if k == 0 then reply.Admitted? else reply.Wait? && AdmittedAt(p, state, times[1..], tokens, waiter, k - 1)
  }

  /** A waiter alone with a free slot is admitted after at most one
      wake per admission in the window, plus those of the block. */
  lemma {:induction false} AdmittedWithinWakes(p: Policy, s: State, times: seq<int>, tokens: nat, waiter: nat)
    returns (k: nat)
    requires p.Valid() && s.active < p.maxConcurrent && tokens <= p.tpm
    requires times != [] && forall i :: 0 <= i < |s.admissions| ==> s.admissions[i].at <= times[0]
    requires |times| > Wakes(s, times[0]) && Paced(p, s, times, tokens, waiter)
    ensures k <= Wakes(s, times[0]) && AdmittedAt(p, s, times, tokens, waiter, k)
    decreases |times|
  {
    var (state, reply) := Attempt(p, s, times[0], tokens, waiter);
    if reply.Admitted? {
      k := 0;
    } else {
      var later := if |times| > 1 then times[1] else times[0] + Max(Timer(p, s, times[0], tokens).GetOr(1), 1);
      EachWakeMakesProgress(p, s, times[0], tokens, waiter, later);
      PrunedArePast(s.admissions, times[0], times[0]);
      var rest := AdmittedWithinWakes(p, state, times[1..], tokens, waiter);
      k := rest + 1;
    }
  }

  // ----- The scheduler of one provider

  class Scheduler {
    const policy: Policy
    var active: int
    var blockedUntil: int
    var admissions: seq<Admission>
    var waiters: set<nat>
    var live: set<nat>
    var issued: nat

    function Snapshot(): State
      reads this
    {
      State(active, blockedUntil, admissions, waiters, live, issued)
    }

    constructor (policy: Policy)
      requires policy.Valid()
      ensures this.policy == policy && Snapshot() == INITIAL
    {
      this.policy := policy;
      active, blockedUntil, admissions, waiters, live, issued := 0, 0, [], {}, {}, 0;
    }

    /** One turn of the loop in `acquire`. */
    method TryAcquire(now: int, tokens: nat, waiter: nat) returns (reply: Reply)
      modifies this
      ensures (Snapshot(), reply) == Attempt(policy, old(Snapshot()), now, tokens, waiter)
    {
      if tokens > policy.tpm {
        return TooLarge;
      }
      waiters := waiters - {waiter};
      var current := Prune(admissions, now);
      admissions := current;
      var tokensInWindow := Tokens(admissions);
      if now >= blockedUntil && active < policy.maxConcurrent && |admissions| < policy.rpm
          && tokensInWindow + tokens <= policy.tpm {
        active := active + 1;
        admissions := admissions + [Admission(now, tokens)];
        live, issued := live + {issued}, issued + 1;
        return Admitted(issued - 1);
      }
      var delays: seq<int> := [];
      if now < blockedUntil {
        delays := delays + [blockedUntil - now];
      }
      if |admissions| >= policy.rpm || tokensInWindow + tokens > policy.tpm {
        if admissions != [] {
          delays := delays + [Max(1, admissions[0].at + WINDOW_MS - now)];
        }
      }
      waiters := waiters + {waiter};
      var timer :=
        if |delays| == 0 then None else if |delays| == 1 then Some(delays[0]) else Some(Min(delays[0], delays[1]));
      reply := Wait(timer);
    }

    method ReleaseLease(lease: nat)
      modifies this
      ensures Snapshot() == Released(old(Snapshot()), lease)
    {
      if lease !in live {
        return;
      }
      live := live - {lease};
      active := active - 1;
      waiters := {};
    }

    method RespectRetryAfter(now: int, milliseconds: nat)
      modifies this
      ensures Snapshot() == Blocked(old(Snapshot()), now, milliseconds)
    {
      blockedUntil := Max(blockedUntil, now + milliseconds);
      waiters := {};
    }
  }
}
