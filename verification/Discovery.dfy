/** Primary discovery: units are called, split, retried or recorded until every line is accounted for. */
module Discovery {
  import opened Options
  import opened Sequences
  import opened ScopePacking
  import opened DiscoveryUnits
  import LineWindows
  import Text

  /** The two ways a unit is declined: by the provider, or by arbitra when no repair made the reply valid. */
  datatype Refusal = ProviderRefused | ReplyRejected

  /** What the call of a unit comes back with. `Fatal` is any error that fails the finder. */
  datatype Reply = Answered | OutputLimit | TimeLimit | Declined(refusal: Refusal) | FailedAlone | Fatal

  datatype Call = Call(asked: Unit, reply: Reply)

  /** What became of a unit: its answer was audited, or it is a recorded gap. */
  datatype Finding = Examined | Unanswered(refusal: Refusal) | Failed
  datatype Entry = Entry(audited: Unit, finding: Finding)

  /** What auditing a unit left: entries for its source, or the unit itself, declined and left to the caller. */
  datatype Outcome = Outcome(entries: seq<Entry>, deferred: Option<Call>, unanswered: bool)

  datatype Result<T> = Ok(value: T) | Thrown

  const MAXIMUM_FAILED_UNITS_IN_A_ROW := 3

  // ----- What an audit must account for

  predicate InEntries(entries: seq<Entry>, file: SourceFile, line: nat) {
    exists i :: 0 <= i < |entries| && Reads(entries[i].audited, file, line)
  }

  /** The entries read exactly the lines the unit does. */
  ghost predicate Accounts(entries: seq<Entry>, u: Unit) {
    forall file, line {:trigger Reads(u, file, line)} :: Reads(u, file, line) <==> InEntries(entries, file, line)
  }

  /** The call behind an entry came back as the entry says. */
  predicate BackedBy(entry: Entry, call: Call) {
    && entry.audited == call.asked
    && match entry.finding
       case Examined => call.reply == Answered
       case Unanswered(refusal) => call.reply == Declined(refusal)
       case Failed => call.reply == FailedAlone
  }

  ghost predicate HasCall(entry: Entry, calls: seq<Call>) {
    exists k :: 0 <= k < |calls| && BackedBy(entry, calls[k])
  }

  /** Each entry rests on a call of its own unit. */
  ghost predicate Backed(entries: seq<Entry>, calls: seq<Call>) {
    forall i :: 0 <= i < |entries| ==> HasCall(entries[i], calls)
  }

  /** No answer is lost: every call answered from `from` on has its entry. */
  ghost predicate KeepsAnswers(entries: seq<Entry>, calls: seq<Call>, from: nat) {
    forall k :: from <= k < |calls| && calls[k].reply == Answered ==> Entry(calls[k].asked, Examined) in entries
  }

  /** An outcome settles its unit, or defers exactly that unit as declined. */
  ghost predicate Settles(o: Outcome, u: Unit, calls: seq<Call>) {
    match o.deferred
    case None =>
      Accounts(o.entries, u) && Backed(o.entries, calls) && Within(o.entries, u) && Marks(o.entries, u, calls)
    case Some(c) => o.entries == [] && c.asked == u && c.reply.Declined? && c in calls
  }

  /** The entries are for the unit itself or for smaller units. */
  ghost predicate Within(entries: seq<Entry>, u: Unit) {
    && WellFormed(u)
    && forall i :: 0 <= i < |entries| ==>
         WellFormed(entries[i].audited) && (entries[i].audited == u || Smaller(entries[i].audited, u))
  }

  ghost predicate AnyLate(calls: seq<Call>) { exists k :: 0 <= k < |calls| && calls[k].reply.TimeLimit? }

  /** A mark is kept by whatever takes the unit's place, and set only once a call ran past its time. */
  ghost predicate Marks(entries: seq<Entry>, u: Unit, calls: seq<Call>) {
    forall i :: 0 <= i < |entries| ==> MarkedAlike(entries[i].audited, u, calls)
  }

  ghost predicate MarkedAlike(part: Unit, u: Unit, calls: seq<Call>) {
    && (u.afterTimeLimit ==> part.afterTimeLimit)
    && (part.afterTimeLimit ==> u.afterTimeLimit || AnyLate(calls))
  }

  predicate AllMarked(entries: seq<Entry>) { forall i :: 0 <= i < |entries| ==> entries[i].audited.afterTimeLimit }

  lemma LateLater(calls: seq<Call>, later: seq<Call>)
    requires calls <= later
    ensures AnyLate(calls) ==> AnyLate(later)
  {
    if AnyLate(calls) {
      var k :| 0 <= k < |calls| && calls[k].reply.TimeLimit?;
      assert later[k] == calls[k];
    }
  }

  lemma PartsMark(outcomes: seq<Outcome>, parts: seq<Unit>, u: Unit, calls: seq<Call>)
    requires AllSettle(outcomes, parts, calls) && NoneDeferred(outcomes)
    requires forall i :: 0 <= i < |parts| ==> MarkedAlike(parts[i], u, calls)
    ensures Marks(AllEntries(outcomes), u, calls)
    ensures (forall i :: 0 <= i < |parts| ==> parts[i].afterTimeLimit) ==> AllMarked(AllEntries(outcomes))
  {
    hide Accounts, Backed, Within;
    var entries := AllEntries(outcomes);
    forall k | 0 <= k < |entries|
      ensures MarkedAlike(entries[k].audited, u, calls)
      ensures (forall i :: 0 <= i < |parts| ==> parts[i].afterTimeLimit) ==> entries[k].audited.afterTimeLimit
    {
      AllEntriesMembers(outcomes, entries[k]);
      var i :| 0 <= i < |outcomes| && entries[k] in outcomes[i].entries;
      assert Settles(outcomes[i], parts[i], calls) && Marks(outcomes[i].entries, parts[i], calls);
      assert MarkedAlike(parts[i], u, calls);
    }
  }

  /** Other units have taken the place of the unit: none of the entries is for it. */
  ghost predicate Displaced(entries: seq<Entry>, u: Unit) {
    forall i :: 0 <= i < |entries| ==> entries[i].audited != u
  }

  lemma PartsDisplace(outcomes: seq<Outcome>, parts: seq<Unit>, u: Unit, calls: seq<Call>)
    requires AllSettle(outcomes, parts, calls) && NoneDeferred(outcomes) && WellFormed(u)
    requires forall i :: 0 <= i < |parts| ==> WellFormed(parts[i]) && Smaller(parts[i], u)
    ensures Within(AllEntries(outcomes), u) && Displaced(AllEntries(outcomes), u)
  {
    hide Accounts, Backed, LineSpan;
    var entries := AllEntries(outcomes);
    forall k | 0 <= k < |entries|
      ensures WellFormed(entries[k].audited) && Smaller(entries[k].audited, u) && entries[k].audited != u
    {
      AllEntriesMembers(outcomes, entries[k]);
      var i :| 0 <= i < |outcomes| && entries[k] in outcomes[i].entries;
      assert Settles(outcomes[i], parts[i], calls) && Within(outcomes[i].entries, parts[i]);
    }
  }

  function AllEntries(outcomes: seq<Outcome>): seq<Entry> {
    if outcomes == [] then [] else AllEntries(outcomes[..|outcomes| - 1]) + outcomes[|outcomes| - 1].entries
  }

  lemma {:induction false} AllEntriesMembers(outcomes: seq<Outcome>, e: Entry)
    ensures e in AllEntries(outcomes) <==> exists i :: 0 <= i < |outcomes| && e in outcomes[i].entries
  {
    if outcomes != [] {
      var n := |outcomes| - 1;
      AllEntriesMembers(outcomes[..n], e);
      assert forall i :: 0 <= i < n ==> outcomes[..n][i] == outcomes[i];
    }
  }

  ghost predicate AllSettle(outcomes: seq<Outcome>, parts: seq<Unit>, calls: seq<Call>) {
    |outcomes| == |parts| && forall i :: 0 <= i < |parts| ==> Settles(outcomes[i], parts[i], calls)
  }

  ghost predicate NoneDeferred(outcomes: seq<Outcome>) {
    forall i :: 0 <= i < |outcomes| ==> outcomes[i].deferred.None?
  }

  lemma SettlesLater(o: Outcome, u: Unit, calls: seq<Call>, later: seq<Call>)
    requires Settles(o, u, calls) && calls <= later
    ensures Settles(o, u, later)
  {
    LateLater(calls, later);
    if o.deferred.None? {
      forall i | 0 <= i < |o.entries| ensures HasCall(o.entries[i], later) {
        assert HasCall(o.entries[i], calls);
        var k :| 0 <= k < |calls| && BackedBy(o.entries[i], calls[k]);
        assert later[k] == calls[k];
      }
    }
  }

  lemma AllSettleMore(outcomes: seq<Outcome>, o: Outcome, parts: seq<Unit>, i: nat, calls: seq<Call>, later: seq<Call>)
    requires i < |parts| && calls <= later
    requires AllSettle(outcomes, parts[..i], calls) && Settles(o, parts[i], later)
    ensures AllSettle(outcomes + [o], parts[..i + 1], later)
  {
    forall k | 0 <= k < i ensures Settles(outcomes[k], parts[k], later) {
      assert Settles(outcomes[k], parts[..i][k], calls);
      SettlesLater(outcomes[k], parts[k], calls, later);
    }
  }

  /** Outcomes that settle all parts of a unit settle the unit. */
  lemma PartsAccount(outcomes: seq<Outcome>, parts: seq<Unit>, u: Unit, calls: seq<Call>)
    requires AllSettle(outcomes, parts, calls) && NoneDeferred(outcomes) && SameLines(parts, u)
    ensures Accounts(AllEntries(outcomes), u)
  {
    var entries := AllEntries(outcomes);
    forall file, line ensures Reads(u, file, line) <==> InEntries(entries, file, line) {
      if Reads(u, file, line) {
        assert ReadByAny(parts, file, line);
        var i :| 0 <= i < |parts| && Reads(parts[i], file, line);
        assert Settles(outcomes[i], parts[i], calls) && InEntries(outcomes[i].entries, file, line);
        var k :| 0 <= k < |outcomes[i].entries| && Reads(outcomes[i].entries[k].audited, file, line);
        AllEntriesMembers(outcomes, outcomes[i].entries[k]);
      }
      if InEntries(entries, file, line) {
        var k :| 0 <= k < |entries| && Reads(entries[k].audited, file, line);
        AllEntriesMembers(outcomes, entries[k]);
        var i :| 0 <= i < |outcomes| && entries[k] in outcomes[i].entries;
        assert Settles(outcomes[i], parts[i], calls) && InEntries(outcomes[i].entries, file, line);
        assert ReadByAny(parts, file, line);
      }
    }
  }

  lemma PartsBacked(outcomes: seq<Outcome>, parts: seq<Unit>, calls: seq<Call>)
    requires AllSettle(outcomes, parts, calls) && NoneDeferred(outcomes)
    ensures Backed(AllEntries(outcomes), calls)
  {
    var entries := AllEntries(outcomes);
    forall k | 0 <= k < |entries| ensures HasCall(entries[k], calls) {
      AllEntriesMembers(outcomes, entries[k]);
      var i :| 0 <= i < |outcomes| && entries[k] in outcomes[i].entries;
      assert Settles(outcomes[i], parts[i], calls) && Backed(outcomes[i].entries, calls);
      var j :| 0 <= j < |outcomes[i].entries| && outcomes[i].entries[j] == entries[k];
    }
  }

  lemma KeepsMore(outcomes: seq<Outcome>, o: Outcome, calls: seq<Call>, later: seq<Call>, from: nat)
    requires from <= |calls| && calls <= later
    requires KeepsAnswers(AllEntries(outcomes), calls, from) && KeepsAnswers(o.entries, later, |calls|)
    ensures KeepsAnswers(AllEntries(outcomes + [o]), later, from)
  {
    assert (outcomes + [o])[..|outcomes|] == outcomes;
  }

  // ----- Units failing in a row

  /** The calls failed at the provider since one was answered or declined. */
  function InARow(calls: seq<Call>): nat {
    if calls == [] then 0
    else
      var before := InARow(calls[..|calls| - 1]);
      match calls[|calls| - 1].reply
      case Answered => 0
      case Declined(_) => 0
      case FailedAlone => before + 1
      case _ => before
  }

  /** At no time had as many units failed in a row as end the audit. */
  ghost predicate NeverTooManyInARow(calls: seq<Call>) {
    forall k :: 0 <= k <= |calls| ==> InARow(calls[..k]) < MAXIMUM_FAILED_UNITS_IN_A_ROW
  }

  lemma InARowStep(calls: seq<Call>, call: Call)
    ensures InARow(calls + [call]) == (match call.reply
                                       case Answered => 0
                                       case Declined(_) => 0
                                       case FailedAlone => InARow(calls) + 1
                                       case _ => InARow(calls))
    ensures NeverTooManyInARow(calls) ==> InARow(calls) < MAXIMUM_FAILED_UNITS_IN_A_ROW
    ensures NeverTooManyInARow(calls) && InARow(calls + [call]) < MAXIMUM_FAILED_UNITS_IN_A_ROW ==>
            NeverTooManyInARow(calls + [call])
  {
    var more := calls + [call];
    assert more[..|calls|] == calls && more[..|more|] == more && calls[..|calls|] == calls;
    if NeverTooManyInARow(calls) && InARow(more) < MAXIMUM_FAILED_UNITS_IN_A_ROW {
      forall k | 0 <= k <= |more| ensures InARow(more[..k]) < MAXIMUM_FAILED_UNITS_IN_A_ROW {
        assert k <= |calls| ==> more[..k] == calls[..k];
      }
    }
  }

  /** Some call was answered, if only to decline. */
  ghost predicate AnyAnswered(calls: seq<Call>) {
    exists k :: 0 <= k < |calls| && (calls[k].reply.Answered? || calls[k].reply.Declined?)
  }

  ghost predicate AnyFailed(calls: seq<Call>) { exists k :: 0 <= k < |calls| && calls[k].reply.FailedAlone? }

  lemma AnyStep(calls: seq<Call>, call: Call)
    ensures AnyAnswered(calls + [call]) <==> AnyAnswered(calls) || call.reply.Answered? || call.reply.Declined?
    ensures AnyFailed(calls + [call]) <==> AnyFailed(calls) || call.reply.FailedAlone?
  {
    var later := calls + [call];
    assert later[|calls|] == call;
    assert forall k :: 0 <= k < |calls| ==> later[k] == calls[k];
  }

  // ----- Calls that end the audit

  /** No file, or one line of one. */
  predicate Indivisible(u: Unit) {
    || u.files == []
    || (|u.files| == 1 && if u.window.Some? then u.window.value.endLine <= u.window.value.startLine
                          else u.files[0].lineCount <= 1)
  }

  /** A call that fails the finder: a fatal one, the third unit in a row to
      fail, or one past a limit on a unit of which nothing can be taken away. */
  predicate EndsIt(calls: seq<Call>, k: nat)
    requires k < |calls|
  {
    match calls[k].reply
    case Fatal => true
    case FailedAlone => InARow(calls[..k + 1]) >= MAXIMUM_FAILED_UNITS_IN_A_ROW
    case OutputLimit => Indivisible(calls[k].asked)
    case TimeLimit => Indivisible(calls[k].asked)
    case _ => false
  }

  /** No call from `from` on failed the finder. */
  ghost predicate Unended(calls: seq<Call>, from: nat) {
    forall k :: from <= k < |calls| ==> !EndsIt(calls, k)
  }

  /** The last call did, and it was the first to. */
  ghost predicate Ended(calls: seq<Call>, from: nat) {
    from < |calls| && EndsIt(calls, |calls| - 1) && Unended(calls[..|calls| - 1], from)
  }

  lemma EndsTheSame(calls: seq<Call>, later: seq<Call>, k: nat)
    requires calls <= later && k < |calls|
    ensures EndsIt(calls, k) <==> EndsIt(later, k)
  {
    hide InARow, Indivisible;
    assert later[..k + 1] == calls[..k + 1];
  }

  lemma UnendedMore(calls: seq<Call>, later: seq<Call>, from: nat)
    requires from <= |calls| && calls <= later && Unended(calls, from)
    ensures Unended(later, |calls|) ==> Unended(later, from)
    ensures Ended(later, |calls|) ==> Ended(later, from)
  {
    hide EndsIt;
    forall k | from <= k < |calls| ensures !EndsIt(later, k) {
      EndsTheSame(calls, later, k);
    }
    if Ended(later, |calls|) {
      var front := later[..|later| - 1];
      forall k | from <= k < |front| ensures !EndsIt(front, k) {
        EndsTheSame(front, later, k);
        if k >= |calls| { assert Unended(front, |calls|); }
      }
    }
  }

  lemma OneCallEnds(calls: seq<Call>, call: Call)
    ensures var later := calls + [call];
            EndsIt(later, |calls|) <==> match call.reply
                                        case Fatal => true
                                        case FailedAlone => InARow(later) >= MAXIMUM_FAILED_UNITS_IN_A_ROW
                                        case OutputLimit => Indivisible(call.asked)
                                        case TimeLimit => Indivisible(call.asked)
                                        case _ => false
    ensures var later := calls + [call];
            if EndsIt(later, |calls|) then Ended(later, |calls|) else Unended(later, |calls|)
  {
    hide InARow, Indivisible;
    var later := calls + [call];
    assert later[..|calls| + 1] == later;
  }

  /** The unit after its call ran past the time limit. */
  function Late(u: Unit): Unit { u.(afterTimeLimit := true) }

  lemma UnsplitIsIndivisible(grouping: Grouping, u: Unit)
    requires WellFormed(u)
    ensures SplitUnit(grouping, u).None? <==> Indivisible(u)
    ensures SplitUnit(grouping, Late(u)).None? <==> Indivisible(u)
  {
    hide SplitUnit;
    UnsplittableIsOneLine(grouping, u);
    UnsplittableIsOneLine(grouping, Late(u));
  }

  /** A unit's parts, marked if it is itself or has just run past its time, can take its place. */
  lemma PartsAreReady(grouping: Grouping, u: Unit, late: bool, calls: seq<Call>)
    requires Partitions(grouping) && Proper(u) && (late ==> AnyLate(calls))
    requires SplitUnit(grouping, if late then Late(u) else u).Some?
    ensures var parts := SplitUnit(grouping, if late then Late(u) else u).value;
            && GoodParts(parts, u)
            && (forall i :: 0 <= i < |parts| ==> MarkedAlike(parts[i], u, calls))
            && (late ==> forall i :: 0 <= i < |parts| ==> parts[i].afterTimeLimit)
  {
    hide SplitUnit, AnyLate, DistinctPaths;
    var unit := if late then Late(u) else u;
    SplitCovers(grouping, unit);
    PartsAreHalves(grouping, unit);
    MarkKeeps(SplitUnit(grouping, unit).value, u, unit.afterTimeLimit);
  }

  // ----- What becomes of one unit

  /** A call of the part came back with an answer, or past a limit. */
  ghost predicate SeparatedBy(part: Unit, from: nat, calls: seq<Call>) {
    exists k :: from <= k < |calls| && calls[k].asked == part
                && (calls[k].reply.Answered? || calls[k].reply.OutputLimit? || calls[k].reply.TimeLimit?)
  }

  ghost predicate Separable(parts: seq<Unit>, from: nat, calls: seq<Call>) {
    exists i :: 0 <= i < |parts| && SeparatedBy(parts[i], from, calls)
  }

  /** The entries leave the unit itself unanswered. */
  ghost predicate GivesUp(entries: seq<Entry>, u: Unit) {
    exists i :: 0 <= i < |entries| && entries[i].audited == u && entries[i].finding.Unanswered?
  }

  /** No part of which something can be taken away is left unanswered as a whole. */
  ghost predicate NotGivenUp(outcomes: seq<Outcome>, parts: seq<Unit>) {
    && |outcomes| <= |parts|
    && forall i :: 0 <= i < |outcomes| && parts[i].window.None? && !Indivisible(parts[i]) ==>
         !GivesUp(outcomes[i].entries, parts[i])
  }

  predicate Recorded(entries: seq<Entry>, part: Unit, call: Call) {
    && call.asked == part
    && match call.reply
       case Declined(refusal) => entries == [Entry(part, Unanswered(refusal))]
       case FailedAlone => entries == [Entry(part, Failed)]
       case _ => false
  }

  /**
   * The parts of a declined unit. If none of them separates what was declined, there is one call for each part
   * and each is recorded; if one does, every part of which something can be taken away was not given up whole.
   */
  ghost predicate RetriedAs(outcomes: seq<Outcome>, parts: seq<Unit>, from: nat, calls: seq<Call>) {
    && |outcomes| == |parts|
    && if Separable(parts, from, calls) then
         NotGivenUp(outcomes, parts)
       else
         && |calls| == from + |parts|
         && forall i :: 0 <= i < |parts| ==> Recorded(outcomes[i].entries, parts[i], calls[from + i])
  }

  /** The entries are what the parts of a unit came to: of one past a limit each
      part is audited as a unit of its own, of a declined one as `RetriedAs` says. */
  ghost predicate StandIn(entries: seq<Entry>, parts: seq<Unit>, declined: bool, from: nat, calls: seq<Call>) {
    exists outcomes :: ComeTo(outcomes, entries, parts, declined, from, calls)
  }

  ghost predicate ComeTo(outcomes: seq<Outcome>, entries: seq<Entry>, parts: seq<Unit>, declined: bool, from: nat,
      calls: seq<Call>)
  {
    && entries == AllEntries(outcomes) && |outcomes| == |parts|
    && if declined then RetriedAs(outcomes, parts, from, calls) else NotGivenUp(outcomes, parts)
  }

  /** A declined unit: a window or a single line is recorded without another call; of any
      other unit smaller parts are called, and none of the entries gives the unit up. */
  ghost predicate TriedSmaller(grouping: Grouping, u: Unit, refusal: Refusal, entries: seq<Entry>, before: seq<Call>,
      calls: seq<Call>)
  {
    if u.window.Some? || Indivisible(u) then calls == before && entries == [Entry(u, Unanswered(refusal))]
    else PartsTried(grouping, u, entries, true, before, calls) && Displaced(entries, u)
  }

  /** The parts a unit is split into were called and stand for it. */
  ghost predicate PartsTried(grouping: Grouping, u: Unit, entries: seq<Entry>, declined: bool, before: seq<Call>,
      calls: seq<Call>)
  {
    && |calls| > |before|
    && SplitUnit(grouping, u).Some? && StandIn(entries, SplitUnit(grouping, u).value, declined, |before|, calls)
  }

  /** An audited unit, by the reply to its own call, which comes first. */
  ghost predicate AuditedAs(grouping: Grouping, u: Unit, o: Outcome, partOfDeclined: bool, before: seq<Call>,
      calls: seq<Call>)
  {
    && |before| < |calls| && calls[|before|].asked == u
    && var first := calls[|before|];
       match first.reply
       case Answered => calls == before + [first] && o == Outcome([Entry(u, Examined)], None, false)
       case FailedAlone => calls == before + [first] && o == Outcome([Entry(u, Failed)], None, true)
       case Declined(refusal) =>
         if partOfDeclined then calls == before + [first] && o == Outcome([], Some(first), false)
         else
           && o.deferred.None? && !o.unanswered
           && TriedSmaller(grouping, u, refusal, o.entries, before + [first], calls)
       case OutputLimit =>
         && o.deferred.None? && !o.unanswered && Displaced(o.entries, u)
         && PartsTried(grouping, u, o.entries, false, before + [first], calls)
       case TimeLimit =>
         && o.deferred.None? && !o.unanswered && AllMarked(o.entries) && Displaced(o.entries, u)
         && PartsTried(grouping, Late(u), o.entries, false, before + [first], calls)
       case Fatal => false
  }

  /** A part whose outcome tells where what was declined is: it was answered, or replaced by parts of its own. */
  predicate Separates(o: Outcome) { o.deferred.None? && !o.unanswered }

  /** The outcome of a part that made no other call: declined and left to the caller, or failed alone. */
  predicate LeftOver(o: Outcome, part: Unit, call: Call) {
    && call.asked == part
    && match call.reply
       case Declined(_) => o == Outcome([], Some(call), false)
       case FailedAlone => o == Outcome([Entry(part, Failed)], None, true)
       case _ => false
  }

  /** The first parts of a declined unit as they were tried. */
  ghost predicate TriedAs(outcomes: seq<Outcome>, parts: seq<Unit>, from: nat, calls: seq<Call>) {
    && |outcomes| <= |parts| && from <= |calls|
    && (forall i :: 0 <= i < |outcomes| && Separates(outcomes[i]) ==> SeparatedBy(parts[i], from, calls))
    && (forall i :: 0 <= i < |outcomes| ==> !GivesUp(outcomes[i].entries, parts[i]))
    && ((forall i :: 0 <= i < |outcomes| ==> !Separates(outcomes[i])) ==>
        |calls| == from + |outcomes|
        && forall i :: 0 <= i < |outcomes| ==> LeftOver(outcomes[i], parts[i], calls[from + i]))
  }

  lemma SeparatedLater(part: Unit, from: nat, calls: seq<Call>, later: seq<Call>)
    requires SeparatedBy(part, from, calls) && calls <= later
    ensures SeparatedBy(part, from, later)
  {
    var k :| from <= k < |calls| && calls[k].asked == part
             && (calls[k].reply.Answered? || calls[k].reply.OutputLimit? || calls[k].reply.TimeLimit?);
    assert later[k] == calls[k];
  }

  lemma AuditedIsTried(grouping: Grouping, u: Unit, o: Outcome, from: nat, before: seq<Call>, calls: seq<Call>)
    requires from <= |before| && AuditedAs(grouping, u, o, true, before, calls)
    ensures Separates(o) ==> SeparatedBy(u, from, calls)
    ensures !Separates(o) ==> calls == before + [calls[|before|]] && LeftOver(o, u, calls[|before|])
    ensures !GivesUp(o.entries, u)
  {
    assert calls[|before|].asked == u;
  }

  lemma AuditedIsNotGivenUp(grouping: Grouping, u: Unit, o: Outcome, before: seq<Call>, calls: seq<Call>)
    requires AuditedAs(grouping, u, o, false, before, calls)
    ensures u.window.None? && !Indivisible(u) ==> !GivesUp(o.entries, u)
  {
    hide StandIn, SplitUnit, Indivisible;
    assert calls[|before|].asked == u;
  }

  lemma TriedMore(grouping: Grouping, outcomes: seq<Outcome>, o: Outcome, parts: seq<Unit>, from: nat,
      before: seq<Call>, calls: seq<Call>)
    requires |outcomes| < |parts| && before <= calls && TriedAs(outcomes, parts, from, before)
    requires AuditedAs(grouping, parts[|outcomes|], o, true, before, calls)
    ensures TriedAs(outcomes + [o], parts, from, calls)
  {
    hide AuditedAs, SeparatedBy, GivesUp, LeftOver, Separates;
    AuditedIsTried(grouping, parts[|outcomes|], o, from, before, calls);
    forall i | 0 <= i < |outcomes| && Separates(outcomes[i]) ensures SeparatedBy(parts[i], from, calls) {
      SeparatedLater(parts[i], from, before, calls);
    }
    var more := outcomes + [o];
    if forall i :: 0 <= i < |more| ==> !Separates(more[i]) {
      assert forall i :: 0 <= i < |outcomes| ==> more[i] == outcomes[i];
      assert more[|outcomes|] == o;
    }
  }

  /** What the second half of `retried` makes of an outcome. */
  ghost predicate SettledAs(part: Unit, tried: Outcome, separable: bool, o: Outcome) {
    && (tried.deferred.None? ==> o == tried)
    && (tried.deferred.Some? && tried.deferred.value.reply.Declined? ==>
        if separable then part.window.None? && !Indivisible(part) ==> Displaced(o.entries, part)
        else o.entries == [Entry(part, Unanswered(tried.deferred.value.reply.refusal))])
  }

  lemma RetriesFollow(tried: seq<Outcome>, outcomes: seq<Outcome>, parts: seq<Unit>, from: nat, asked: seq<Call>,
      calls: seq<Call>, separable: bool)
    requires |tried| == |outcomes| == |parts| && TriedAs(tried, parts, from, asked) && asked <= calls
    requires separable <==> exists i :: 0 <= i < |tried| && Separates(tried[i])
    requires forall i :: 0 <= i < |parts| ==> SettledAs(parts[i], tried[i], separable, outcomes[i])
    requires forall i :: 0 <= i < |parts| && tried[i].deferred.Some? ==> tried[i].deferred.value.reply.Declined?
    requires !separable ==> calls == asked
    ensures RetriedAs(outcomes, parts, from, calls)
  {
    hide Indivisible;
    if separable {
      var i :| 0 <= i < |tried| && Separates(tried[i]);
      SeparatedLater(parts[i], from, asked, calls);
    } else {
      forall i | 0 <= i < |parts| ensures Recorded(outcomes[i].entries, parts[i], calls[from + i]) {
        assert LeftOver(tried[i], parts[i], calls[from + i]);
      }
      NoneSeparates(outcomes, parts, from, calls);
    }
  }

  lemma NoneSeparates(outcomes: seq<Outcome>, parts: seq<Unit>, from: nat, calls: seq<Call>)
    requires |calls| == from + |parts| && |outcomes| == |parts|
    requires forall i :: 0 <= i < |parts| ==> Recorded(outcomes[i].entries, parts[i], calls[from + i])
    ensures !Separable(parts, from, calls)
  {
    forall k | from <= k < |calls| ensures calls[k].reply.Declined? || calls[k].reply.FailedAlone? {
      assert Recorded(outcomes[k - from].entries, parts[k - from], calls[from + (k - from)]);
    }
  }

  lemma NoneSettled(parts: seq<Unit>, calls: seq<Call>)
    ensures AllSettle([], parts[..0], calls) && TriedAs([], parts, |calls|, calls)
    ensures KeepsAnswers(AllEntries([]), calls, |calls|) && Unended(calls, |calls|)
  {
  }

  /** The entry of a unit whose own call was the last. */
  lemma OwnEntrySettles(u: Unit, o: Outcome, calls: seq<Call>, from: nat)
    requires WellFormed(u) && o.deferred.None? && |o.entries| == 1 && |calls| == from + 1
    requires o.entries[0].audited == u && BackedBy(o.entries[0], calls[from])
    ensures Settles(o, u, calls) && KeepsAnswers(o.entries, calls, from)
  {
    hide Reads, LineSpan;
    forall file, line ensures Reads(u, file, line) <==> InEntries(o.entries, file, line) {
      assert o.entries[0].audited == u;
    }
    assert HasCall(o.entries[0], calls);
  }

  // ----- The finder

  class Finder {
    const grouping: Grouping
    /** The reply to the n-th call, whatever unit it is for: any pattern of outcomes. */
    const replies: (nat, Unit) -> Reply
    var sent: nat
    var inARow: nat
    var anyAnswered: bool
    var anyFailed: bool
    ghost var calls: seq<Call>

    /** The counters say what the calls so far say. */
    ghost predicate Tallied()
      reads this
    {
      && inARow == InARow(calls) && NeverTooManyInARow(calls)
      && (anyAnswered <==> AnyAnswered(calls)) && (anyFailed <==> AnyFailed(calls))
    }

    constructor (grouping: Grouping, replies: (nat, Unit) -> Reply)
      ensures this.grouping == grouping && this.replies == replies
      ensures sent == 0 && inARow == 0 && !anyAnswered && !anyFailed && calls == [] && Tallied()
    {
      this.grouping, this.replies := grouping, replies;
      sent, inARow, anyAnswered, anyFailed, calls := 0, 0, false, false, [];
    }

    /** Sends the unit's call and returns its reply. */
    method Send(u: Unit) returns (reply: Reply)
      modifies this
      ensures calls == old(calls) + [Call(u, reply)]
      ensures reply == replies(old(sent), u) && sent == old(sent) + 1
      ensures inARow == old(inARow) && anyAnswered == old(anyAnswered) && anyFailed == old(anyFailed)
    {
      reply := replies(sent, u);
      sent := sent + 1;
      calls := calls + [Call(u, reply)];
    }

    /** `FailedUnits.answered`. */
    method NoteAnswered()
      modifies this
      ensures calls == old(calls) && inARow == 0 && anyAnswered && anyFailed == old(anyFailed)
    {
      inARow, anyAnswered := 0, true;
    }

    /** `FailedUnits.failed`: the third unit in a row to fail at the provider fails the finder. */
    method NoteFailed() returns (throws: bool)
      modifies this
      ensures calls == old(calls) && inARow == old(inARow) + 1 && anyAnswered == old(anyAnswered) && anyFailed
      ensures throws <==> inARow >= MAXIMUM_FAILED_UNITS_IN_A_ROW
    {
      inARow, anyFailed := inARow + 1, true;
      throws := inARow >= MAXIMUM_FAILED_UNITS_IN_A_ROW;
    }

    /** `record`: the unit becomes a gap that says why it was not examined. */
    method Record(u: Unit, finding: Finding) returns (o: Outcome)
      ensures o == Outcome([Entry(u, finding)], None, false)
      ensures Accounts(o.entries, u)
    {
      o := Outcome([Entry(u, finding)], None, false);
      forall file, line ensures Reads(u, file, line) <==> InEntries(o.entries, file, line) {
        assert o.entries[0].audited == u;
      }
    }

    /** `audit`: one unit's call, and what is done when it gives no answer. */
    method Audit(u: Unit, partOfDeclined: bool) returns (r: Result<Outcome>)
      requires Partitions(grouping) && Proper(u)
      requires Tallied()
      modifies this
      ensures r.Ok? ==> Tallied()
      ensures old(calls) <= calls
      ensures r.Ok? ==> Settles(r.value, u, calls) && KeepsAnswers(r.value.entries, calls, |old(calls)|)
      ensures r.Ok? && !partOfDeclined ==> r.value.deferred.None?
      ensures |calls| > |old(calls)| && calls[|old(calls)|].asked == u
      ensures r.Ok? ==> AuditedAs(grouping, u, r.value, partOfDeclined, old(calls), calls)
      ensures if r.Ok? then Unended(calls, |old(calls)|) else Ended(calls, |old(calls)|)
      decreases |u.files|, LineSpan(u), 4
    {
      hide InARow, NeverTooManyInARow, AnyAnswered, AnyFailed, EndsIt, Unended, Ended, Indivisible, SplitUnit, Reads,
        Accounts, Displaced, DistinctPaths, LineSpan, StandIn, MarkedAlike, AllMarked, Marks;
      var reply := Send(u);
      ghost var sent := calls;
      InARowStep(old(calls), Call(u, reply));
      AnyStep(old(calls), Call(u, reply));
      OneCallEnds(old(calls), Call(u, reply));
      UnsplitIsIndivisible(grouping, u);
      match reply {
        case Answered =>
          NoteAnswered();
          r := Ok(Outcome([Entry(u, Examined)], None, false));
          OwnEntrySettles(u, r.value, calls, |old(calls)|);
        case OutputLimit =>
          var parts := SplitUnit(grouping, u);
          if parts.None? {
            return Thrown;
          }
          PartsAreReady(grouping, u, false, calls);
          r := Replaced(u, parts.value, false);
          UnendedMore(sent, calls, |old(calls)|);
        case TimeLimit =>
          var parts := SplitUnit(grouping, Late(u));
          if parts.None? {
            return Thrown;
          }
          assert sent[|old(calls)|].reply == TimeLimit;
          PartsAreReady(grouping, u, true, calls);
          r := Replaced(u, parts.value, false);
          UnendedMore(sent, calls, |old(calls)|);
        case FailedAlone =>
          var throws := NoteFailed();
          if throws {
            return Thrown;
          }
          var o := Record(u, Failed);
          r := Ok(o.(unanswered := true));
          OwnEntrySettles(u, r.value, calls, |old(calls)|);
        case Declined(refusal) =>
          NoteAnswered();
          assert calls[|calls| - 1] == Call(u, reply);
          if partOfDeclined {
            r := Ok(Outcome([], Some(Call(u, reply)), false));
          } else {
            r := Settle(u, refusal);
            UnendedMore(sent, calls, |old(calls)|);
          }
        case Fatal =>
          r := Thrown;
      }
    }

    /** `settle`: what is done with a declined unit: whole files
        are split and their parts audited, a window is recorded. */
    method Settle(u: Unit, refusal: Refusal) returns (r: Result<Outcome>)
      requires Partitions(grouping) && Proper(u)
      requires Call(u, Declined(refusal)) in calls
      requires Tallied()
      modifies this
      ensures r.Ok? ==> Tallied()
      ensures old(calls) <= calls
      ensures r.Ok? ==>
              Settles(r.value, u, calls) && KeepsAnswers(r.value.entries, calls, |old(calls)|) && r.value.deferred.None?
      ensures r.Ok? ==> !r.value.unanswered && TriedSmaller(grouping, u, refusal, r.value.entries, old(calls), calls)
      ensures if r.Ok? then Unended(calls, |old(calls)|) else Ended(calls, |old(calls)|)
      decreases |u.files|, LineSpan(u), 3
    {
      UnsplitIsIndivisible(grouping, u);
      var parts := if u.window.None? then SplitUnit(grouping, u) else None;
      if parts.None? {
        var o := Record(u, Unanswered(refusal));
        ghost var k :| 0 <= k < |calls| && calls[k] == Call(u, Declined(refusal));
        assert BackedBy(o.entries[0], calls[k]);
        r := Ok(o);
      } else {
        PartsAreReady(grouping, u, false, calls);
        r := Replaced(u, parts.value, true);
      }
    }

    /** `replaced`: what auditing the parts found stands for the unit. */
    method Replaced(u: Unit, parts: seq<Unit>, declined: bool) returns (r: Result<Outcome>)
      requires Partitions(grouping) && Proper(u) && SameLines(parts, u) && parts != []
      requires forall i :: 0 <= i < |parts| ==>
                 Proper(parts[i]) && Smaller(parts[i], u) && MarkedAlike(parts[i], u, calls)
      requires Tallied()
      modifies this
      ensures r.Ok? ==> Tallied()
      ensures old(calls) <= calls
      ensures r.Ok? ==>
              Settles(r.value, u, calls) && KeepsAnswers(r.value.entries, calls, |old(calls)|) && r.value.deferred.None?
      ensures r.Ok? ==> !r.value.unanswered && |calls| > |old(calls)| && Displaced(r.value.entries, u)
      ensures r.Ok? ==> StandIn(r.value.entries, parts, declined, |old(calls)|, calls)
      ensures r.Ok? && (forall i :: 0 <= i < |parts| ==> parts[i].afterTimeLimit) ==> AllMarked(r.value.entries)
      ensures if r.Ok? then Unended(calls, |old(calls)|) else Ended(calls, |old(calls)|)
      decreases |u.files|, LineSpan(u), 2
    {
      var inner: Result<seq<Outcome>>;
      if declined {
        inner := Retried(|u.files|, LineSpan(u), parts);
      } else {
        inner := AuditAll(|u.files|, LineSpan(u), parts, false);
      }
      if inner.Thrown? {
        return Thrown;
      }
      PartsAccount(inner.value, parts, u, calls);
      PartsBacked(inner.value, parts, calls);
      PartsDisplace(inner.value, parts, u, calls);
      LateLater(old(calls), calls);
      PartsMark(inner.value, parts, u, calls);
      r := Ok(Outcome(AllEntries(inner.value), None, false));
      assert ComeTo(inner.value, r.value.entries, parts, declined, |old(calls)|, calls);
    }

    /** The parts audited one after another; the first failure ends the audit. */
    method AuditAll(ghost files: nat, ghost span: nat, parts: seq<Unit>, partOfDeclined: bool)
      returns (r: Result<seq<Outcome>>)
      requires Partitions(grouping)
      requires forall i :: 0 <= i < |parts| ==> Proper(parts[i]) && Below(parts[i], files, span)
      requires Tallied()
      modifies this
      ensures r.Ok? ==> Tallied()
      ensures old(calls) <= calls
      ensures r.Ok? ==> AllSettle(r.value, parts, calls) && KeepsAnswers(AllEntries(r.value), calls, |old(calls)|)
      ensures r.Ok? && !partOfDeclined ==> NoneDeferred(r.value) && NotGivenUp(r.value, parts)
      ensures r.Ok? && partOfDeclined ==> TriedAs(r.value, parts, |old(calls)|, calls)
      ensures |calls| >= |old(calls)| + if r.Ok? then |parts| else 1
      ensures if r.Ok? then Unended(calls, |old(calls)|) else Ended(calls, |old(calls)|)
      decreases files, span, 0
    {
      hide InARow, NeverTooManyInARow, AnyAnswered, AnyFailed, EndsIt, Unended, Ended, Indivisible, Settles, AuditedAs,
        TriedAs, KeepsAnswers, AllEntries, DistinctPaths, LineSpan;
      var outcomes := [];
      NoneSettled(parts, calls);
      for i := 0 to |parts|
        invariant old(calls) <= calls && Tallied()
        invariant |calls| >= |old(calls)| + i && Unended(calls, |old(calls)|)
        invariant partOfDeclined ==> TriedAs(outcomes, parts, |old(calls)|, calls)
        invariant AllSettle(outcomes, parts[..i], calls)
        invariant KeepsAnswers(AllEntries(outcomes), calls, |old(calls)|)
        invariant !partOfDeclined ==> NoneDeferred(outcomes) && NotGivenUp(outcomes, parts)
      {
        ghost var before := calls;
        var one := Audit(parts[i], partOfDeclined);
        UnendedMore(before, calls, |old(calls)|);
        if one.Thrown? {
          return Thrown;
        }
        KeepsMore(outcomes, one.value, before, calls, |old(calls)|);
        AllSettleMore(outcomes, one.value, parts, i, before, calls);
        if partOfDeclined {
          TriedMore(grouping, outcomes, one.value, parts, |old(calls)|, before, calls);
        } else {
          AuditedIsNotGivenUp(grouping, parts[i], one.value, before, calls);
        }
        outcomes := outcomes + [one.value];
      }
      r := Ok(outcomes);
    }

    /** `retried`: a part declined beside answered parts is split
        again; when every part is declined, each is recorded. */
    method Retried(ghost files: nat, ghost span: nat, parts: seq<Unit>) returns (r: Result<seq<Outcome>>)
      requires Partitions(grouping)
      requires forall i :: 0 <= i < |parts| ==> Proper(parts[i]) && Below(parts[i], files, span)
      requires Tallied()
      modifies this
      ensures r.Ok? ==> Tallied()
      ensures old(calls) <= calls
      ensures r.Ok? ==>
              AllSettle(r.value, parts, calls) && NoneDeferred(r.value)
              && KeepsAnswers(AllEntries(r.value), calls, |old(calls)|)
      ensures r.Ok? ==> RetriedAs(r.value, parts, |old(calls)|, calls)
      ensures |calls| >= |old(calls)| + if r.Ok? then |parts| else 1
      ensures if r.Ok? then Unended(calls, |old(calls)|) else Ended(calls, |old(calls)|)
      decreases files, span, 1
    {
      hide InARow, NeverTooManyInARow, AnyAnswered, AnyFailed, EndsIt, Unended, Ended, Indivisible, TriedAs, RetriedAs,
        DistinctPaths, LineSpan, Accounts, Backed, Within;
      var tried := AuditAll(files, span, parts, true);
      if tried.Thrown? {
        return Thrown;
      }
      var separable := exists i :: 0 <= i < |tried.value| && Separates(tried.value[i]);
      ghost var asked := calls;
      r := RetryAll(files, span, parts, tried.value, separable);
      UnendedMore(asked, calls, |old(calls)|);
      if r.Ok? {
        RetriesFollow(tried.value, r.value, parts, |old(calls)|, asked, calls, separable);
        forall k | |old(calls)| <= k < |calls| && calls[k].reply == Answered
          ensures Entry(calls[k].asked, Examined) in AllEntries(r.value)
        {
          if k < |asked| {
            AllEntriesMembers(tried.value, Entry(asked[k].asked, Examined));
            AllEntriesMembers(r.value, Entry(asked[k].asked, Examined));
          }
        }
      }
    }

    /** The second half of `retried`: each part declined so far is split again, or recorded. */
    method RetryAll(ghost files: nat, ghost span: nat, parts: seq<Unit>, tried: seq<Outcome>, separable: bool)
      returns (r: Result<seq<Outcome>>)
      requires Partitions(grouping) && AllSettle(tried, parts, calls)
      requires forall i :: 0 <= i < |parts| ==> Proper(parts[i]) && Below(parts[i], files, span)
      requires Tallied()
      modifies this
      ensures r.Ok? ==> Tallied()
      ensures old(calls) <= calls
      ensures r.Ok? ==>
              AllSettle(r.value, parts, calls) && NoneDeferred(r.value)
              && KeepsAnswers(AllEntries(r.value), calls, |old(calls)|)
      ensures r.Ok? ==> forall i :: 0 <= i < |parts| ==> tried[i].entries == [] || r.value[i] == tried[i]
      ensures r.Ok? ==> forall i :: 0 <= i < |parts| ==> SettledAs(parts[i], tried[i], separable, r.value[i])
      ensures !separable ==> r.Ok? && calls == old(calls)
      ensures if r.Ok? then Unended(calls, |old(calls)|) else Ended(calls, |old(calls)|)
      decreases files, span, 0
    {
      hide InARow, NeverTooManyInARow, AnyAnswered, AnyFailed, EndsIt, Unended, Ended, Indivisible, Settles, SettledAs,
        TriedSmaller, KeepsAnswers, AllEntries, DistinctPaths, LineSpan;
      var outcomes := [];
      NoneSettled(parts, calls);
      for i := 0 to |parts|
        invariant old(calls) <= calls && Tallied() && (!separable ==> calls == old(calls))
        invariant AllSettle(outcomes, parts[..i], calls) && NoneDeferred(outcomes)
        invariant forall k :: 0 <= k < i ==> tried[k].entries == [] || outcomes[k] == tried[k]
        invariant forall k :: 0 <= k < i ==> SettledAs(parts[k], tried[k], separable, outcomes[k])
        invariant Unended(calls, |old(calls)|)
        invariant KeepsAnswers(AllEntries(outcomes), calls, |old(calls)|)
      {
        ghost var before := calls;
        SettlesLater(tried[i], parts[i], old(calls), calls);
        var one := RetryOne(parts[i], tried[i], separable);
        UnendedMore(before, calls, |old(calls)|);
        if one.Thrown? {
          return Thrown;
        }
        AllSettleMore(outcomes, one.value, parts, i, before, calls);
        KeepsMore(outcomes, one.value, before, calls, |old(calls)|);
        outcomes := outcomes + [one.value];
      }
      assert parts[..|parts|] == parts;
      r := Ok(outcomes);
    }

    /** What `retried` does with the outcome of one part. */
    method RetryOne(part: Unit, tried: Outcome, separable: bool) returns (r: Result<Outcome>)
      requires Partitions(grouping) && Proper(part) && Settles(tried, part, calls)
      requires Tallied()
      modifies this
      ensures r.Ok? ==> Tallied()
      ensures old(calls) <= calls
      ensures r.Ok? ==>
              Settles(r.value, part, calls) && r.value.deferred.None?
              && KeepsAnswers(r.value.entries, calls, |old(calls)|)
      ensures r.Ok? ==> tried.entries == [] || r.value == tried
      ensures r.Ok? ==> SettledAs(part, tried, separable, r.value)
      ensures !separable ==> r.Ok? && calls == old(calls)
      ensures if r.Ok? then Unended(calls, |old(calls)|) else Ended(calls, |old(calls)|)
      decreases |part.files|, LineSpan(part), 4
    {
      if tried.deferred.None? {
        r := Ok(tried);
      } else if separable {
        r := Settle(part, tried.deferred.value.reply.refusal);
      } else {
        var o := Record(part, Unanswered(tried.deferred.value.reply.refusal));
        ghost var k :| 0 <= k < |calls| && calls[k] == tried.deferred.value;
        assert BackedBy(o.entries[0], calls[k]);
        r := Ok(o);
      }
    }

    // ----- The whole of primary discovery

    /** The parts that take the place of the whole snapshot when its call gives no answer. */
    method DiscoverParts(whole: Unit, parts: seq<Unit>, declined: bool) returns (r: Result<seq<Entry>>)
      requires Partitions(grouping) && Proper(whole) && SameLines(parts, whole) && Tallied()
      requires forall i :: 0 <= i < |parts| ==>
                 Proper(parts[i]) && Smaller(parts[i], whole) && MarkedAlike(parts[i], whole, calls)
      modifies this
      ensures old(calls) <= calls
      ensures r.Ok? ==>
              Tallied() && Accounts(r.value, whole) && Backed(r.value, calls)
              && KeepsAnswers(r.value, calls, |old(calls)|) && Marks(r.value, whole, calls)
      ensures r.Ok? ==> StandIn(r.value, parts, declined, |old(calls)|, calls)
      ensures r.Ok? && (forall i :: 0 <= i < |parts| ==> parts[i].afterTimeLimit) ==> AllMarked(r.value)
      ensures r.Ok? && parts != [] ==> |calls| > |old(calls)| && Displaced(r.value, whole)
      ensures if r.Ok? then Completes(calls, |old(calls)|) else FailsFinder(calls, |old(calls)|)
    {
      var outcomes: Result<seq<Outcome>>;
      if declined {
        outcomes := Retried(|whole.files|, LineSpan(whole), parts);
      } else {
        outcomes := AuditAll(|whole.files|, LineSpan(whole), parts, false);
      }
      if outcomes.Thrown? || (!anyAnswered && anyFailed) {
        return Thrown;
      }
      PartsAccount(outcomes.value, parts, whole, calls);
      PartsBacked(outcomes.value, parts, calls);
      PartsDisplace(outcomes.value, parts, whole, calls);
      LateLater(old(calls), calls);
      PartsMark(outcomes.value, parts, whole, calls);
      r := Ok(AllEntries(outcomes.value));
      assert ComeTo(outcomes.value, r.value, parts, declined, |old(calls)|, calls);
    }

    /** The snapshot in one call, and the smaller units tried when that call gives no answer. */
    method DiscoverWhole(snapshot: seq<SourceFile>) returns (r: Result<Coverage>)
      requires Partitions(grouping) && Tallied() && DistinctPaths(snapshot)
      modifies this
      ensures old(calls) <= calls
      ensures r.Ok? ==> Complete(r.value, snapshot, calls, |old(calls)|) && r.value.unexamined == []
      ensures WholeAs(grouping, Unit(snapshot, [], None, false), r, old(calls), calls)
    {
      hide Reads, SplitUnit, DistinctPaths, SameLines, InARow, Indivisible;
      var whole := Unit(snapshot, [], None, false);
      var reply := Send(whole);
      InARowStep(old(calls), Call(whole, reply));
      AnyStep(old(calls), Call(whole, reply));
      UnsplitIsIndivisible(grouping, whole);
      if reply.Declined? {
        NoteAnswered();
      }
      var late := if reply.TimeLimit? then Late(whole) else whole;
      var splits := reply.OutputLimit? || reply.Declined? || reply.TimeLimit?;
      var parts := if splits then SplitUnit(grouping, late) else None;
      if reply.Answered? || (reply.Declined? && parts.None?) {
        var o := Record(whole, if reply.Answered? then Examined else Unanswered(reply.refusal));
        assert BackedBy(o.entries[0], calls[|calls| - 1]);
        WholeIsComplete(o.entries, whole, calls, |old(calls)|);
        r := Ok(Coverage(o.entries, []));
      } else if parts.None? {
        r := Thrown;
      } else {
        ghost var before := calls;
        assert before[|old(calls)|].reply == reply;
        PartsAreReady(grouping, whole, reply.TimeLimit?, calls);
        var entries := DiscoverParts(whole, parts.value, reply.Declined?);
        if entries.Thrown? {
          return Thrown;
        }
        assert forall k :: |old(calls)| <= k < |before| ==> calls[k] == before[k] == Call(whole, reply);
        WholeIsComplete(entries.value, whole, calls, |old(calls)|);
        r := Ok(Coverage(entries.value, []));
      }
    }

    /** The packed scopes and the line windows, audited one after another. */
    method DiscoverUnits(snapshot: seq<SourceFile>, plan: Plan) returns (r: Result<Coverage>)
      requires Partitions(grouping) && Tallied() && Plans(plan, snapshot)
      modifies this
      ensures old(calls) <= calls
      ensures r.Ok? ==> Complete(r.value, snapshot, calls, |old(calls)|) && r.value.unexamined == plan.unexamined
      ensures r.Ok? ==> |calls| >= |old(calls)| + |plan.units|
      ensures if r.Ok? then Completes(calls, |old(calls)|) else FailsFinder(calls, |old(calls)|)
    {
      ghost var files := MostFiles(plan.units) + 1;
      forall i | 0 <= i < |plan.units| ensures Below(plan.units[i], files, 0) {
        MostFilesBound(plan.units, i);
      }
      var outcomes := AuditAll(files, 0, plan.units, false);
      if outcomes.Thrown? || (!anyAnswered && anyFailed) {
        return Thrown;
      }
      PlanIsComplete(snapshot, plan, outcomes.value, calls, |old(calls)|);
      r := Ok(Coverage(AllEntries(outcomes.value), plan.unexamined));
    }

    /** `discoverPrimary`: the snapshot in one call when it fits, else in packed scopes and line windows.
        Either it throws, or every line is in an audited unit, a recorded gap or the reported unexamined lines. */
    method DiscoverPrimary(snapshot: seq<SourceFile>, wholeFits: bool, fits: ScopePacking.Fits,
        fitsWindow: SourceFile -> LineWindows.Fits)
      returns (r: Result<Coverage>)
      requires Partitions(grouping) && Tallied() && DistinctPaths(snapshot)
      modifies this
      ensures old(calls) <= calls
      ensures r.Ok? ==> Complete(r.value, snapshot, calls, |old(calls)|)
      ensures r.Ok? ==> forall file, line :: (file, line) in r.value.unexamined ==>
              !wholeFits && !fitsWindow(file)(line, line)
      ensures wholeFits ==>
                WholeAs(grouping, Unit(snapshot, [], None, false), if r.Ok? then r else Thrown, old(calls), calls)
      ensures !wholeFits ==> if r.Ok? then Completes(calls, |old(calls)|) else FailsFinder(calls, |old(calls)|)
    {
      if wholeFits {
        r := DiscoverWhole(snapshot);
      } else {
        var scopes, unallocated := AllocateDiscoveryScopes(grouping(snapshot), fits);
        AllocationReachesEveryFile(grouping, snapshot, fits);
        UnallocatedAreListed(grouping, snapshot, fits);
        var plan := PlanUnits(snapshot, scopes, unallocated, fitsWindow);
        if plan.Thrown? {
          return Thrown;
        }
        r := DiscoverUnits(snapshot, plan.value);
      }
    }
  }

  // ----- How discovery ends

  /** It failed over a call, or went through and none of its calls was answered though some failed. */
  ghost predicate FailsFinder(calls: seq<Call>, from: nat) {
    Ended(calls, from) || (Unended(calls, from) && !AnyAnswered(calls) && AnyFailed(calls))
  }

  ghost predicate Completes(calls: seq<Call>, from: nat) {
    Unended(calls, from) && (AnyAnswered(calls) || !AnyFailed(calls))
  }

  /** What became of the call for the whole snapshot, by its reply. */
  ghost predicate WholeAs(grouping: Grouping, whole: Unit, r: Result<Coverage>, before: seq<Call>, calls: seq<Call>) {
    && |before| < |calls| && calls[|before|].asked == whole
    && (r.Ok? && !Indivisible(whole) && !calls[|before|].reply.Answered? ==> Displaced(r.value.entries, whole))
    && var first := calls[|before|];
       match first.reply
       case Answered => calls == before + [first] && r == Ok(Coverage([Entry(whole, Examined)], []))
       case FailedAlone => calls == before + [first] && r == Thrown
       case Fatal => calls == before + [first] && r == Thrown
       case Declined(refusal) =>
         if Indivisible(whole) then
           calls == before + [first] && r == Ok(Coverage([Entry(whole, Unanswered(refusal))], []))
         else PartsStandFor(grouping, whole, r, true, before + [first], calls)
       case OutputLimit =>
         if Indivisible(whole) then calls == before + [first] && r == Thrown
         else PartsStandFor(grouping, whole, r, false, before + [first], calls)
       case TimeLimit =>
         if Indivisible(whole) then calls == before + [first] && r == Thrown
         else PartsStandFor(grouping, Late(whole), r, false, before + [first], calls)
  }

  ghost predicate PartsStandFor(grouping: Grouping, whole: Unit, r: Result<Coverage>, declined: bool,
      before: seq<Call>, calls: seq<Call>)
  {
    if r.Ok? then
      && PartsTried(grouping, whole, r.value.entries, declined, before, calls)
      && Marks(r.value.entries, whole, calls) && Completes(calls, |before|)
    else FailsFinder(calls, |before|)
  }

  // ----- The plan for a snapshot that does not fit one call

  datatype Plan = Plan(units: seq<Unit>, unexamined: seq<(SourceFile, nat)>)

  /** What discovery publishes: the entries, and the lines too large for any window. */
  datatype Coverage = Coverage(entries: seq<Entry>, unexamined: seq<(SourceFile, nat)>)

  predicate Planned(plan: Plan, file: SourceFile, line: nat) {
    ReadByAny(plan.units, file, line) || (file, line) in plan.unexamined
  }

  ghost predicate Plans(plan: Plan, snapshot: seq<SourceFile>) {
    && (forall i :: 0 <= i < |plan.units| ==> Proper(plan.units[i]))
    && (forall file, line {:trigger Planned(plan, file, line)} :: file in snapshot && 1 <= line <= file.lineCount ==>
        Planned(plan, file, line))
  }

  /** Nothing is silently skipped and no answer is lost. */
  ghost predicate Complete(c: Coverage, snapshot: seq<SourceFile>, calls: seq<Call>, from: nat) {
    && (forall file, line {:trigger InEntries(c.entries, file, line)} ::
          file in snapshot && 1 <= line <= file.lineCount ==>
          InEntries(c.entries, file, line) || (file, line) in c.unexamined)
    && Backed(c.entries, calls) && KeepsAnswers(c.entries, calls, from) && NeverTooManyInARow(calls)
  }

  lemma WholeIsComplete(entries: seq<Entry>, whole: Unit, calls: seq<Call>, from: nat)
    requires Accounts(entries, whole) && whole.window.None?
    requires Backed(entries, calls) && KeepsAnswers(entries, calls, from) && NeverTooManyInARow(calls)
    ensures Complete(Coverage(entries, []), whole.files, calls, from)
  {
    forall file, line | file in whole.files && 1 <= line <= file.lineCount ensures InEntries(entries, file, line) {
      assert Reads(whole, file, line);
    }
  }

  lemma PlanIsComplete(snapshot: seq<SourceFile>, plan: Plan, outcomes: seq<Outcome>, calls: seq<Call>, from: nat)
    requires Plans(plan, snapshot) && AllSettle(outcomes, plan.units, calls) && NoneDeferred(outcomes)
    requires KeepsAnswers(AllEntries(outcomes), calls, from) && NeverTooManyInARow(calls)
    ensures Complete(Coverage(AllEntries(outcomes), plan.unexamined), snapshot, calls, from)
  {
    PartsBacked(outcomes, plan.units, calls);
    var entries := AllEntries(outcomes);
    forall file, line | file in snapshot && 1 <= line <= file.lineCount
      ensures InEntries(entries, file, line) || (file, line) in plan.unexamined
    {
      assert Planned(plan, file, line);
      if ReadByAny(plan.units, file, line) {
        UnitsAccount(outcomes, plan.units, calls, file, line);
      }
    }
  }

  lemma UnitsAccount(outcomes: seq<Outcome>, units: seq<Unit>, calls: seq<Call>, file: SourceFile, line: nat)
    requires AllSettle(outcomes, units, calls) && NoneDeferred(outcomes) && ReadByAny(units, file, line)
    ensures InEntries(AllEntries(outcomes), file, line)
  {
    var i :| 0 <= i < |units| && Reads(units[i], file, line);
    assert Settles(outcomes[i], units[i], calls) && InEntries(outcomes[i].entries, file, line);
    var k :| 0 <= k < |outcomes[i].entries| && Reads(outcomes[i].entries[k].audited, file, line);
    AllEntriesMembers(outcomes, outcomes[i].entries[k]);
  }

  ghost function MostFiles(units: seq<Unit>): nat {
    if units == [] then 0
    else
      var before := MostFiles(units[..|units| - 1]);
      if before < |units[|units| - 1].files| then |units[|units| - 1].files| else before
  }

  lemma {:induction false} MostFilesBound(units: seq<Unit>, i: nat)
    requires i < |units|
    ensures |units[i].files| <= MostFiles(units)
  {
    var n := |units| - 1;
    if i < n {
      MostFilesBound(units[..n], i);
    }
  }

  ghost predicate Reached(scopes: seq<Scope>, unallocated: seq<Text.Units>, file: SourceFile) {
    (exists i :: 0 <= i < |scopes| && file in scopes[i].files) || file.path in unallocated
  }

  lemma AllocationReachesEveryFile(grouping: Grouping, snapshot: seq<SourceFile>, fits: ScopePacking.Fits)
    requires Partitions(grouping) && DistinctPaths(snapshot)
    ensures var a := Allocation(grouping(snapshot), fits);
            && (forall file :: file in snapshot ==> Reached(a.scopes, Text.Sort(Paths(a.skipped)), file))
            && (forall i :: 0 <= i < |a.scopes| ==> DistinctPaths(a.scopes[i].files))
  {
    hide DistinctPaths;
    var a := Allocation(grouping(snapshot), fits);
    forall f ensures Count(Placed(a.scopes), f) <= Count(snapshot, f) {
      AllocationConserves(grouping(snapshot), fits, f);
    }
    ScopesStayDistinct(a.scopes, snapshot);
    forall file | file in snapshot ensures Reached(a.scopes, Text.Sort(Paths(a.skipped)), file) {
      AllocationConserves(grouping(snapshot), fits, file);
      assert Count(AllFiles(grouping(snapshot)), file) == Count(snapshot, file) > 0;
      PlacedMembers(a.scopes, file);
      if file in a.skipped {
        var k :| 0 <= k < |a.skipped| && a.skipped[k] == file;
        assert Paths(a.skipped)[k] == file.path;
        Text.SortSorts(Paths(a.skipped));
        assert file.path in multiset(Text.Sort(Paths(a.skipped)));
      }
    }
  }

  function ScopesAsUnits(scopes: seq<Scope>): (units: seq<Unit>)
    ensures |units| == |scopes|
    ensures forall i :: 0 <= i < |scopes| ==> units[i] == Unit(scopes[i].files, scopes[i].splitModules, None, false)
  {
    seq(|scopes|, i requires 0 <= i < |scopes| => Unit(scopes[i].files, scopes[i].splitModules, None, false))
  }

  function WindowUnits(file: SourceFile, windows: seq<LineWindows.Window>): (units: seq<Unit>)
    ensures |units| == |windows|
    ensures forall i :: 0 <= i < |windows| ==> units[i] == Unit([file], [], Some(windows[i]), false)
  {
    seq(|windows|, i requires 0 <= i < |windows| => Unit([file], [], Some(windows[i]), false))
  }

  function LinesOf(file: SourceFile, lines: seq<nat>): (tagged: seq<(SourceFile, nat)>)
    ensures |tagged| == |lines|
    ensures forall i :: 0 <= i < |lines| ==> tagged[i] == (file, lines[i])
  {
    seq(|lines|, i requires 0 <= i < |lines| => (file, lines[i]))
  }

  /** `snapshot.files.find` by path. */
  function FindFile(snapshot: seq<SourceFile>, path: Text.Units): (found: Option<SourceFile>)
    ensures found.Some? ==> found.value in snapshot && found.value.path == path
    ensures found.None? ==> forall f :: f in snapshot ==> f.path != path
  {
    if snapshot == [] then None
    else if snapshot[0].path == path then Some(snapshot[0])
    else
      assert snapshot == [snapshot[0]] + snapshot[1..];
      FindFile(snapshot[1..], path)
  }

  predicate Listed(snapshot: seq<SourceFile>, path: Text.Units) {
    exists i :: 0 <= i < |snapshot| && snapshot[i].path == path
  }

  /** The paths that packing leaves out are paths of the snapshot, so planning never misses a file. */
  lemma UnallocatedAreListed(grouping: Grouping, snapshot: seq<SourceFile>, fits: ScopePacking.Fits)
    requires Partitions(grouping) && DistinctPaths(snapshot)
    ensures var left := Text.Sort(Paths(Allocation(grouping(snapshot), fits).skipped));
            forall path :: path in left ==> Listed(snapshot, path)
  {
    hide DistinctPaths, Allocation, AllFiles, Placed;
    var skipped := Allocation(grouping(snapshot), fits).skipped;
    Text.SortSorts(Paths(skipped));
    forall path | path in Text.Sort(Paths(skipped)) ensures Listed(snapshot, path) {
      assert path in multiset(Text.Sort(Paths(skipped)));
      var k :| 0 <= k < |Paths(skipped)| && Paths(skipped)[k] == path;
      AllocationConserves(grouping(snapshot), fits, skipped[k]);
      assert Count(AllFiles(grouping(snapshot)), skipped[k]) == Count(snapshot, skipped[k]);
      assert skipped[k] in snapshot;
    }
  }

  /** Every window line and every reported line of the file is planned. */
  lemma WindowsPlanTheFile(file: SourceFile, windows: seq<LineWindows.Window>, lines: seq<nat>, fits: LineWindows.Fits)
    requires LineWindows.Accounted(windows, lines, file.lineCount + 1, file.lineCount, fits)
    ensures forall i :: 0 <= i < |windows| ==> Proper(WindowUnits(file, windows)[i])
    ensures forall line :: 1 <= line <= file.lineCount ==>
            Planned(Plan(WindowUnits(file, windows), LinesOf(file, lines)), file, line)
    ensures forall f, line :: (f, line) in LinesOf(file, lines) ==> f == file && !fits(line, line)
  {
    var units := WindowUnits(file, windows);
    forall line | 1 <= line <= file.lineCount ensures Planned(Plan(units, LinesOf(file, lines)), file, line) {
      if LineWindows.Covers(windows, line) {
        var i :| 0 <= i < |windows| && windows[i].startLine <= line <= windows[i].endLine;
        assert Reads(units[i], file, line);
      } else {
        var k :| 0 <= k < |lines| && lines[k] == line;
        assert LinesOf(file, lines)[k] == (file, line);
      }
    }
  }

  lemma PlannedMore(a: Plan, b: Plan, file: SourceFile, line: nat)
    ensures Planned(Plan(a.units + b.units, a.unexamined + b.unexamined), file, line) <==>
            Planned(a, file, line) || Planned(b, file, line)
  {
    var units := a.units + b.units;
    if ReadByAny(a.units, file, line) {
      var i :| 0 <= i < |a.units| && Reads(a.units[i], file, line);
      assert Reads(units[i], file, line);
    }
    if ReadByAny(b.units, file, line) {
      var i :| 0 <= i < |b.units| && Reads(b.units[i], file, line);
      assert Reads(units[|a.units| + i], file, line);
    }
  }

  /** The lines planned once the scopes and the first `n` unallocated files are. */
  ghost predicate PlannedSoFar(plan: Plan, snapshot: seq<SourceFile>, scopes: seq<Scope>, paths: seq<Text.Units>) {
    forall file, line {:trigger Planned(plan, file, line)} ::
      file in snapshot && 1 <= line <= file.lineCount && Reached(scopes, paths, file) ==> Planned(plan, file, line)
  }

  /** The scopes, then the line windows of each unallocated file. */
  method PlanUnits(snapshot: seq<SourceFile>, scopes: seq<Scope>, unallocated: seq<Text.Units>,
      fitsWindow: SourceFile -> LineWindows.Fits)
    returns (r: Result<Plan>)
    requires DistinctPaths(snapshot)
    requires forall file :: file in snapshot ==> Reached(scopes, unallocated, file)
    requires forall i :: 0 <= i < |scopes| ==> DistinctPaths(scopes[i].files)
    ensures (forall path :: path in unallocated ==> Listed(snapshot, path)) ==> r.Ok?
    ensures r.Ok? ==> Plans(r.value, snapshot)
    ensures r.Ok? ==> forall file, line :: (file, line) in r.value.unexamined ==> !fitsWindow(file)(line, line)
  {
    var plan := Plan(ScopesAsUnits(scopes), []);
    forall file, line | file in snapshot && 1 <= line <= file.lineCount && Reached(scopes, [], file)
      ensures Planned(plan, file, line)
    {
      var i :| 0 <= i < |scopes| && file in scopes[i].files;
      assert Reads(plan.units[i], file, line);
    }
    for k := 0 to |unallocated|
      invariant forall i :: 0 <= i < |plan.units| ==> Proper(plan.units[i])
      invariant PlannedSoFar(plan, snapshot, scopes, unallocated[..k])
      invariant forall file, line :: (file, line) in plan.unexamined ==> !fitsWindow(file)(line, line)
    {
      var found := FindFile(snapshot, unallocated[k]);
      if found.None? {
        assert !Listed(snapshot, unallocated[k]);
        return Thrown;
      }
      var windows, lines := LineWindows.AllocateLineWindows(found.value.lineCount, fitsWindow(found.value),
          DISCOVERY_WINDOW_OVERLAP_LINES);
      WindowsPlanTheFile(found.value, windows, lines, fitsWindow(found.value));
      var more := Plan(WindowUnits(found.value, windows), LinesOf(found.value, lines));
      PlanGrows(snapshot, scopes, unallocated, k, plan, more, found.value);
      plan := Plan(plan.units + more.units, plan.unexamined + more.unexamined);
    }
    assert unallocated[..|unallocated|] == unallocated;
    r := Ok(plan);
  }

  lemma PlanGrows(snapshot: seq<SourceFile>, scopes: seq<Scope>, paths: seq<Text.Units>, k: nat, plan: Plan, more: Plan,
      found: SourceFile)
    requires k < |paths| && DistinctPaths(snapshot) && found in snapshot && found.path == paths[k]
    requires PlannedSoFar(plan, snapshot, scopes, paths[..k])
    requires forall line :: 1 <= line <= found.lineCount ==> Planned(more, found, line)
    ensures PlannedSoFar(Plan(plan.units + more.units, plan.unexamined + more.unexamined), snapshot, scopes,
            paths[..k + 1])
  {
    var both := Plan(plan.units + more.units, plan.unexamined + more.unexamined);
    forall file, line | file in snapshot && 1 <= line <= file.lineCount && Reached(scopes, paths[..k + 1], file)
      ensures Planned(both, file, line)
    {
      PlannedMore(plan, more, file, line);
      PrefixStep(paths, k);
      if !Reached(scopes, paths[..k], file) {
        assert file.path == found.path;
        assert file == found;
      } else {
        assert Planned(plan, file, line);
      }
    }
  }
}
