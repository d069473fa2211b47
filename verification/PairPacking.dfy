/** Pair checks: every two records of different review batches are read together once, in as few calls as fit. */
module PairPacking {
  import opened Options
  import opened Sequences
  import opened ReviewBatches

  type Pair = (Id, Id)

  /** One record of a pair, cut into `count` consecutive segments, of which a part carries the one at `index`. */
  datatype Segment = Segment(record: Id, index: nat, count: nat)

  datatype Part =
    | Full(records: seq<Id>)
    | Review(records: seq<Id>)
    | PairCheck(records: seq<Id>, segment: Option<Segment>, pairs: Option<seq<Pair>>)

  type PartFits = Part -> bool

  /** What one turn of the packing loop settles: the pairs it takes off the list, and the parts it adds. */
  datatype Iteration = Iteration(pairs: seq<Pair>, parts: seq<Part>)

  const MAXIMUM_PAIR_SEGMENTS: nat := 16

  // ----- Segmented pairs

  function SegmentParts(p: Pair, split: Id, count: nat, n: nat): seq<Part>
    requires n <= count
  {
    if n == 0 then []
    else
      SegmentParts(p, split, count, n - 1)
      + [PairCheck([p.0, p.1], Some(Segment(split, n - 1, count)), None)]
  }

  function AllFit(parts: seq<Part>, fits: PartFits): bool {
    parts == [] || (AllFit(parts[..|parts| - 1], fits) && fits(parts[|parts| - 1]))
  }

  /** The fewest segments that fit, the right record cut before the left one. */
  function SegmentedFrom(p: Pair, count: nat, fits: PartFits): Option<seq<Part>>
    decreases MAXIMUM_PAIR_SEGMENTS + 1 - count
  {
    if count > MAXIMUM_PAIR_SEGMENTS then None
    else if AllFit(SegmentParts(p, p.1, count, count), fits) then Some(SegmentParts(p, p.1, count, count))
    else if AllFit(SegmentParts(p, p.0, count, count), fits) then Some(SegmentParts(p, p.0, count, count))
    else SegmentedFrom(p, count + 1, fits)
  }

  /** `segmentedPair`. */
  method SegmentedPair(p: Pair, fits: PartFits) returns (parts: Option<seq<Part>>)
    ensures parts == SegmentedFrom(p, 2, fits)
  {
    hide AllFit, SegmentParts;
    for count := 2 to MAXIMUM_PAIR_SEGMENTS + 1
      invariant SegmentedFrom(p, 2, fits) == SegmentedFrom(p, count, fits)
    {
      if AllFit(SegmentParts(p, p.1, count, count), fits) {
        return Some(SegmentParts(p, p.1, count, count));
      }
      if AllFit(SegmentParts(p, p.0, count, count), fits) {
        return Some(SegmentParts(p, p.0, count, count));
      }
    }
    parts := None;
  }

  ghost predicate SegmentsOf(parts: seq<Part>, p: Pair, split: Id, count: nat, fits: PartFits) {
    && (split == p.0 || split == p.1) && 2 <= count <= MAXIMUM_PAIR_SEGMENTS && |parts| == count
    && forall i {:trigger parts[i]} :: 0 <= i < count ==>
        parts[i] == PairCheck([p.0, p.1], Some(Segment(split, i, count)), None) && fits(parts[i])
  }

  lemma {:induction false} SegmentPartAt(p: Pair, split: Id, count: nat, n: nat, i: nat)
    requires i < n <= count
    ensures |SegmentParts(p, split, count, n)| == n
    ensures SegmentParts(p, split, count, n)[i] == PairCheck([p.0, p.1], Some(Segment(split, i, count)), None)
  {
    if n > 1 { SegmentPartAt(p, split, count, n - 1, if i < n - 1 then i else 0); }
  }

  lemma {:induction false} AllFitAt(parts: seq<Part>, fits: PartFits, i: nat)
    requires AllFit(parts, fits) && i < |parts|
    ensures fits(parts[i])
  {
    if i < |parts| - 1 { AllFitAt(parts[..|parts| - 1], fits, i); }
  }

  lemma SegmentsFit(p: Pair, split: Id, count: nat, fits: PartFits)
    requires (split == p.0 || split == p.1) && 2 <= count <= MAXIMUM_PAIR_SEGMENTS
             && AllFit(SegmentParts(p, split, count, count), fits)
    ensures SegmentsOf(SegmentParts(p, split, count, count), p, split, count, fits)
  {
    hide AllFit, SegmentParts;
    SegmentPartAt(p, split, count, count, 0);
    forall i | 0 <= i < count
      ensures SegmentParts(p, split, count, count)[i] == PairCheck([p.0, p.1], Some(Segment(split, i, count)), None)
              && fits(SegmentParts(p, split, count, count)[i])
    {
      SegmentPartAt(p, split, count, count, i);
      AllFitAt(SegmentParts(p, split, count, count), fits, i);
    }
  }

  lemma {:induction false} SegmentedFits(p: Pair, count: nat, fits: PartFits)
    requires count >= 2 && SegmentedFrom(p, count, fits).Some?
    ensures exists split, n :: SegmentsOf(SegmentedFrom(p, count, fits).value, p, split, n, fits)
    decreases MAXIMUM_PAIR_SEGMENTS + 1 - count
  {
    hide SegmentsOf, AllFit, SegmentParts;
    if AllFit(SegmentParts(p, p.1, count, count), fits) {
      SegmentsFit(p, p.1, count, fits);
    } else if AllFit(SegmentParts(p, p.0, count, count), fits) {
      SegmentsFit(p, p.0, count, fits);
    } else {
      SegmentedFits(p, count + 1, fits);
    }
  }

  /** Cut into so many segments, one of the two records makes parts that all fit. */
  predicate CutFits(p: Pair, count: nat, fits: PartFits) {
    AllFit(SegmentParts(p, p.1, count, count), fits) || AllFit(SegmentParts(p, p.0, count, count), fits)
  }

  /** As few segments as fit are made, and none only where no number of them fits. */
  lemma {:induction false} SegmentedIsFewest(p: Pair, count: nat, fits: PartFits)
    requires count >= 2
    ensures SegmentedFrom(p, count, fits).None? <==>
            forall n :: count <= n <= MAXIMUM_PAIR_SEGMENTS ==> !CutFits(p, n, fits)
    ensures SegmentedFrom(p, count, fits).Some? ==>
              var n := |SegmentedFrom(p, count, fits).value|;
              && CutFits(p, n, fits) && forall m :: count <= m < n ==> !CutFits(p, m, fits)
    decreases MAXIMUM_PAIR_SEGMENTS + 1 - count
  {
    hide AllFit, SegmentParts;
    if count <= MAXIMUM_PAIR_SEGMENTS {
      SegmentPartAt(p, p.1, count, count, 0);
      SegmentPartAt(p, p.0, count, count, 0);
      if !CutFits(p, count, fits) {
        SegmentedIsFewest(p, count + 1, fits);
      }
    }
  }

  /** All of the parts fit. */
  lemma {:induction false} AllFitIff(parts: seq<Part>, fits: PartFits)
    ensures AllFit(parts, fits) <==> forall i :: 0 <= i < |parts| ==> fits(parts[i])
  {
    if parts != [] {
      AllFitIff(parts[..|parts| - 1], fits);
      assert forall i :: 0 <= i < |parts| - 1 ==> parts[..|parts| - 1][i] == parts[i];
    }
  }

  // ----- Packing

  predicate Holds(members: seq<Id>, p: Pair) { p.0 in members && p.1 in members }

  /** The pairs still to check that the members carry. */
  function Covered(pending: seq<Pair>, members: seq<Id>): seq<Pair> {
    if pending == [] then []
    else
      Covered(pending[..|pending| - 1], members)
          + if Holds(members, pending[|pending| - 1]) then [pending[|pending| - 1]] else []
  }

  function Without(pending: seq<Pair>, pairs: seq<Pair>): seq<Pair> {
    if pending == [] then []
    else
      Without(pending[..|pending| - 1], pairs)
          + if pending[|pending| - 1] in pairs then [] else [pending[|pending| - 1]]
  }

  /** The members in the order of the records. */
  function InOrder(records: seq<Id>, members: seq<Id>): seq<Id> {
    if records == [] then []
    else
      InOrder(records[..|records| - 1], members)
          + if records[|records| - 1] in members then [records[|records| - 1]] else []
  }

  /** The part that carries the members; a single pair keeps its plain shape. */
  function Packed(records: seq<Id>, pending: seq<Pair>, members: seq<Id>): Part {
    var pairs := Covered(pending, members);
    if |pairs| == 1 then PairCheck([pairs[0].0, pairs[0].1], None, None)
    else PairCheck(InOrder(records, members), None, Some(pairs))
  }

  /** How many members a record has an unchecked pair with. */
  function Gain(members: seq<Id>, id: Id, pending: seq<Pair>): nat {
    if members == [] then 0
    else
      var m := members[|members| - 1];
      Gain(members[..|members| - 1], id, pending) + if (id, m) in pending || (m, id) in pending then 1 else 0
  }

  predicate Linked(id: Id, member: Id, pending: seq<Pair>) { (id, member) in pending || (member, id) in pending }

  ghost function LinkedAt(members: seq<Id>, id: Id, pending: seq<Pair>): set<nat> {
    set i: nat | i < |members| && Linked(id, members[i], pending)
  }

  /** The gain of a record is the number of members it still has to be checked with. */
  lemma {:induction false} GainCounts(members: seq<Id>, id: Id, pending: seq<Pair>)
    ensures Gain(members, id, pending) == |LinkedAt(members, id, pending)|
  {
    if members != [] {
      var n := |members| - 1;
      var front := members[..n];
      GainCounts(front, id, pending);
      assert LinkedAt(members, id, pending)
          == LinkedAt(front, id, pending) + if Linked(id, members[n], pending) then {n} else {};
    }
  }

  /** The record that gains most, the first of those; none when no record gains. */
  datatype Best = Best(id: Option<Id>, gain: nat)

  function BestOf(records: seq<Id>, members: seq<Id>, tried: set<Id>, pending: seq<Pair>): Best {
    if records == [] then Best(None, 0)
    else
      var before, id := BestOf(records[..|records| - 1], members, tried, pending), records[|records| - 1];
      if id in members || id in tried || Gain(members, id, pending) <= before.gain then before
      else Best(Some(id), Gain(members, id, pending))
  }

  function Set(records: seq<Id>): set<Id> { set i | 0 <= i < |records| :: records[i] }

  lemma {:induction false} BestIsNew(records: seq<Id>, members: seq<Id>, tried: set<Id>, pending: seq<Pair>)
    ensures var best := BestOf(records, members, tried, pending);
            && (best.id.Some? ==>
                best.id.value in Set(records) && best.id.value !in members && best.id.value !in tried && best.gain > 0
                && best.gain == Gain(members, best.id.value, pending))
            && (best.id.None? ==> best.gain == 0)
            && (forall id :: id in records && id !in members && id !in tried ==>
                Gain(members, id, pending) <= best.gain)
  {
    if records != [] {
      var front := records[..|records| - 1];
      BestIsNew(front, members, tried, pending);
      assert forall i :: 0 <= i < |front| ==> front[i] == records[i];
      assert records == front + [records[|records| - 1]];
    }
  }

  /** Grows the members by the record that gains most, while the call still fits. */
  function Grow(records: seq<Id>, pending: seq<Pair>, members: seq<Id>, tried: set<Id>, fits: PartFits,
      maximum: nat): seq<Id>
    decreases |Set(records) - tried|
  {
    var best := BestOf(records, members, tried, pending);
    if |members| >= maximum || best.id.None? then members
    else
      BestIsNew(records, members, tried, pending);
      TriedShrinks(records, tried, best.id.value);
      Grow(records, pending,
           if fits(Packed(records, pending, members + [best.id.value])) then members + [best.id.value] else members,
           tried + {best.id.value}, fits, maximum)
  }

  lemma TriedShrinks(records: seq<Id>, tried: set<Id>, id: Id)
    requires id in Set(records) && id !in tried
    ensures |Set(records) - (tried + {id})| < |Set(records) - tried|
  {
    assert Set(records) - (tried + {id}) == (Set(records) - tried) - {id};
  }

  /** One turn of the packing loop: none where it throws. */
  function Iterate(records: seq<Id>, pending: seq<Pair>, fits: PartFits, maximum: nat): Option<Iteration>
    requires pending != []
  {
    var p := pending[0];
    if !fits(PairCheck([p.0, p.1], None, None)) then
      var segmented := SegmentedFrom(p, 2, fits);
      if segmented.None? then None else Some(Iteration([p], segmented.value))
    else
      var members := Grow(records, pending, [p.0, p.1], {}, fits, maximum);
      Some(Iteration(Covered(pending, members), [Packed(records, pending, members)]))
  }

  lemma {:induction false} CoveredMembers(pending: seq<Pair>, members: seq<Id>)
    ensures forall p :: p in Covered(pending, members) <==> p in pending && Holds(members, p)
  {
    if pending != [] {
      CoveredMembers(pending[..|pending| - 1], members);
      assert pending == pending[..|pending| - 1] + [pending[|pending| - 1]];
    }
  }

  lemma {:induction false} WithoutMembers(pending: seq<Pair>, pairs: seq<Pair>)
    ensures forall p :: p in Without(pending, pairs) <==> p in pending && p !in pairs
    ensures |Without(pending, pairs)| <= |pending|
    ensures (exists p :: p in pending && p in pairs) ==> |Without(pending, pairs)| < |pending|
  {
    if pending != [] {
      WithoutMembers(pending[..|pending| - 1], pairs);
      assert pending == pending[..|pending| - 1] + [pending[|pending| - 1]];
    }
  }

  lemma {:induction false} GrowKeepsMembers(records: seq<Id>, pending: seq<Pair>, members: seq<Id>, tried: set<Id>,
      fits: PartFits, maximum: nat)
    ensures members <= Grow(records, pending, members, tried, fits, maximum)
    decreases |Set(records) - tried|
  {
    hide BestOf, Packed;
    var best := BestOf(records, members, tried, pending);
    if !(|members| >= maximum || best.id.None?) {
      BestIsNew(records, members, tried, pending);
      TriedShrinks(records, tried, best.id.value);
      var more := members + [best.id.value];
      GrowKeepsMembers(records, pending, more, tried + {best.id.value}, fits, maximum);
      GrowKeepsMembers(records, pending, members, tried + {best.id.value}, fits, maximum);
    }
  }

  /** The call of some of the members with the record would not fit. */
  ghost predicate Refused(records: seq<Id>, pending: seq<Pair>, members: seq<Id>, grown: seq<Id>, id: Id,
      fits: PartFits)
  {
    exists m :: members <= m <= grown && !fits(Packed(records, pending, m + [id]))
  }

  /** A call grows until it is full: every record left out would add no pair, or did not fit when it was tried. */
  lemma {:induction false} GrowIsMaximal(records: seq<Id>, pending: seq<Pair>, members: seq<Id>, tried: set<Id>,
      fits: PartFits, maximum: nat)
    ensures var grown := Grow(records, pending, members, tried, fits, maximum);
            || |grown| >= maximum
            || forall id :: id in records && id !in grown && id !in tried ==>
                 Gain(grown, id, pending) == 0 || Refused(records, pending, members, grown, id, fits)
    decreases |Set(records) - tried|
  {
    hide BestOf, Packed, Gain;
    var grown := Grow(records, pending, members, tried, fits, maximum);
    var best := BestOf(records, members, tried, pending);
    BestIsNew(records, members, tried, pending);
    if !(|members| >= maximum || best.id.None?) {
      TriedShrinks(records, tried, best.id.value);
      var tries := members + [best.id.value];
      var more := if fits(Packed(records, pending, tries)) then tries else members;
      GrowIsMaximal(records, pending, more, tried + {best.id.value}, fits, maximum);
      GrowKeepsMembers(records, pending, more, tried + {best.id.value}, fits, maximum);
      GrowKeepsMembers(records, pending, members, tried, fits, maximum);
      if more != members {
        assert best.id.value == more[|members|] == grown[|members|];
      }
      forall id | id in records && id !in grown && id !in tried && |grown| < maximum && Gain(grown, id, pending) != 0
        ensures Refused(records, pending, members, grown, id, fits)
      {
        if id == best.id.value {
          assert members <= members <= grown;
        } else {
          var m :| more <= m <= grown && !fits(Packed(records, pending, m + [id]));
          assert members <= m;
        }
      }
    }
  }

  /** A turn always takes the first pair off the list. */
  lemma TurnTakesFirst(records: seq<Id>, pending: seq<Pair>, fits: PartFits, maximum: nat)
    requires pending != [] && Iterate(records, pending, fits, maximum).Some?
    ensures pending[0] in Iterate(records, pending, fits, maximum).value.pairs
  {
    hide Grow, Covered, Packed, SegmentedFrom;
    var p := pending[0];
    var members := Grow(records, pending, [p.0, p.1], {}, fits, maximum);
    GrowKeepsMembers(records, pending, [p.0, p.1], {}, fits, maximum);
    CoveredMembers(pending, members);
    assert members[0] == [p.0, p.1][0] && members[1] == [p.0, p.1][1];
  }

  /** All turns of the loop: none where one throws. */
  function Packing(records: seq<Id>, pending: seq<Pair>, fits: PartFits, maximum: nat): Option<seq<Iteration>>
    decreases |pending|
  {
    if pending == [] then Some([])
    else
      var turn := Iterate(records, pending, fits, maximum);
      if turn.None? then None
      else
        TurnTakesFirst(records, pending, fits, maximum);
        WithoutMembers(pending, turn.value.pairs);
        var rest := Packing(records, Without(pending, turn.value.pairs), fits, maximum);
        if rest.None? then None else Some([turn.value] + rest.value)
  }

  // ----- The loops

  method FindBest(records: seq<Id>, members: seq<Id>, tried: set<Id>, pending: seq<Pair>) returns (best: Option<Id>)
    ensures best == BestOf(records, members, tried, pending).id
  {
    best := None;
    var bestGain := 0;
    for i := 0 to |records|
      invariant Best(best, bestGain) == BestOf(records[..i], members, tried, pending)
    {
      PrefixStep(records, i);
      var id := records[i];
      if id in members || id in tried {
        continue;
      }
      var gain := Gain(members, id, pending);
      if gain > bestGain {
        best, bestGain := Some(id), gain;
      }
    }
    assert records[..|records|] == records;
  }

  method GrowMembers(records: seq<Id>, pending: seq<Pair>, p: Pair, fits: PartFits, maximum: nat)
    returns (members: seq<Id>)
    ensures members == Grow(records, pending, [p.0, p.1], {}, fits, maximum)
  {
    hide BestOf, Packed;
    members := [p.0, p.1];
    var tried := {};
    while |members| < maximum
      invariant Grow(records, pending, members, tried, fits, maximum)
                == Grow(records, pending, [p.0, p.1], {}, fits, maximum)
      decreases |Set(records) - tried|
    {
      var best := FindBest(records, members, tried, pending);
      if best.None? {
        break;
      }
      BestIsNew(records, members, tried, pending);
      TriedShrinks(records, tried, best.value);
      tried := tried + {best.value};
      if fits(Packed(records, pending, members + [best.value])) {
        members := members + [best.value];
      }
    }
  }

  function PartsOf(iterations: seq<Iteration>): seq<Part> {
    if iterations == [] then [] else PartsOf(iterations[..|iterations| - 1]) + iterations[|iterations| - 1].parts
  }

  lemma PartsAppend(iterations: seq<Iteration>, last: Iteration)
    ensures PartsOf(iterations + [last]) == PartsOf(iterations) + last.parts
  {
    assert (iterations + [last])[..|iterations|] == iterations;
  }

  lemma PackingStep(records: seq<Id>, pending: seq<Pair>, fits: PartFits, maximum: nat)
    requires pending != []
    ensures Iterate(records, pending, fits, maximum).None? ==> Packing(records, pending, fits, maximum).None?
    ensures Iterate(records, pending, fits, maximum).Some? ==>
              var turn := Iterate(records, pending, fits, maximum).value;
              var rest := Packing(records, Without(pending, turn.pairs), fits, maximum);
              && |Without(pending, turn.pairs)| < |pending|
              && Packing(records, pending, fits, maximum) == if rest.None? then None else Some([turn] + rest.value)
  {
    hide Iterate, Without;
    var turn := Iterate(records, pending, fits, maximum);
    if turn.Some? {
      TurnTakesFirst(records, pending, fits, maximum);
      WithoutMembers(pending, turn.value.pairs);
    }
  }

  /** What a packing is, once these turns are done and this is what the rest comes to. */
  function Continued(done: seq<Iteration>, rest: Option<seq<Iteration>>): Option<seq<Iteration>> {
    if rest.None? then None else Some(done + rest.value)
  }

  lemma ContinuedNothing(rest: Option<seq<Iteration>>)
    ensures Continued([], rest) == rest
  {
    if rest.Some? { assert [] + rest.value == rest.value; }
  }

  lemma ContinuedStep(done: seq<Iteration>, turn: Iteration, rest: Option<seq<Iteration>>)
    ensures Continued(done, if rest.None? then None else Some([turn] + rest.value)) == Continued(done + [turn], rest)
  {
    if rest.Some? {
      assert done + ([turn] + rest.value) == done + [turn] + rest.value;
    }
  }

  /** The packing loop; `turns` records what each turn settled. */
  method PackPairs(records: seq<Id>, crossing: seq<Pair>, fits: PartFits, maximum: nat)
    returns (parts: Option<seq<Part>>, turns: seq<Iteration>)
    ensures parts.Some? <==> Packing(records, crossing, fits, maximum).Some?
    ensures parts.Some? ==> Packing(records, crossing, fits, maximum) == Some(turns) && parts.value == PartsOf(turns)
  {
    hide Packing, Iterate, Without, PartsOf;
    var pending, emitted: seq<Part> := crossing, [];
    turns := [];
    NoParts();
    ContinuedNothing(Packing(records, crossing, fits, maximum));
    while pending != []
      invariant Packing(records, crossing, fits, maximum) == Continued(turns, Packing(records, pending, fits, maximum))
      invariant emitted == PartsOf(turns)
      decreases |pending|
    {
      var p := pending[0];
      PackingStep(records, pending, fits, maximum);
      ghost var one := Iterate(records, pending, fits, maximum);
      ghost var left := Without(pending, if one.None? then [] else one.value.pairs);
      ghost var rest := Packing(records, left, fits, maximum);
      var turn;
      if !fits(PairCheck([p.0, p.1], None, None)) {
        var segmented := SegmentedPair(p, fits);
        TurnIs(records, pending, fits, maximum);
        if segmented.None? {
          return None, turns;
        }
        turn := Iteration([p], segmented.value);
      } else {
        var members := GrowMembers(records, pending, p, fits, maximum);
        TurnIs(records, pending, fits, maximum);
        turn := Iteration(Covered(pending, members), [Packed(records, pending, members)]);
      }
      ContinuedStep(turns, turn, rest);
      PartsAppend(turns, turn);
      emitted, turns := emitted + turn.parts, turns + [turn];
      pending := Without(pending, turn.pairs);
    }
    PackingDone(records, fits, maximum);
    assert turns + [] == turns;
    parts := Some(emitted);
  }

  lemma NoParts()
    ensures PartsOf([]) == []
  {
  }

  lemma PackingDone(records: seq<Id>, fits: PartFits, maximum: nat)
    ensures Packing(records, [], fits, maximum) == Some([])
  {
  }

  lemma TurnIs(records: seq<Id>, pending: seq<Pair>, fits: PartFits, maximum: nat)
    requires pending != []
    ensures var p := pending[0];
            var members := Grow(records, pending, [p.0, p.1], {}, fits, maximum);
            Iterate(records, pending, fits, maximum) ==
              if fits(PairCheck([p.0, p.1], None, None))
              then Some(Iteration(Covered(pending, members), [Packed(records, pending, members)]))
              else if SegmentedFrom(p, 2, fits).None? then None
              else Some(Iteration([p], SegmentedFrom(p, 2, fits).value))
  {
    hide Grow, Covered, Packed, SegmentedFrom;
  }

  // ----- Each pair is checked exactly once

  function Times(turns: seq<Iteration>, p: Pair): nat {
    if turns == [] then 0 else (if p in turns[0].pairs then 1 else 0) + Times(turns[1..], p)
  }

  lemma TurnPairsArePending(records: seq<Id>, pending: seq<Pair>, fits: PartFits, maximum: nat, p: Pair)
    requires pending != [] && Iterate(records, pending, fits, maximum).Some?
             && p in Iterate(records, pending, fits, maximum).value.pairs
    ensures p in pending
  {
    hide Grow, Packed, SegmentedFrom, Covered;
    CoveredMembers(pending, Grow(records, pending, [pending[0].0, pending[0].1], {}, fits, maximum));
  }

  /** Every pair still to check is settled by exactly one turn, and no other pair by any. */
  lemma {:induction false} EachPairOnce(records: seq<Id>, pending: seq<Pair>, fits: PartFits, maximum: nat, p: Pair)
    requires Packing(records, pending, fits, maximum).Some?
    ensures Times(Packing(records, pending, fits, maximum).value, p) == if p in pending then 1 else 0
    decreases |pending|
  {
    hide Packing, Iterate, Without;
    if pending == [] {
      PackingDone(records, fits, maximum);
    } else {
      PackingStep(records, pending, fits, maximum);
      var turn := Iterate(records, pending, fits, maximum).value;
      var rest := Without(pending, turn.pairs);
      WithoutMembers(pending, turn.pairs);
      EachPairOnce(records, rest, fits, maximum, p);
      assert ([turn] + Packing(records, rest, fits, maximum).value)[1..] == Packing(records, rest, fits, maximum).value;
      if p in turn.pairs {
        TurnPairsArePending(records, pending, fits, maximum, p);
      }
    }
  }

  // ----- Each turn's parts carry its pairs, and fit

  ghost predicate Before(records: seq<Id>, a: Id, b: Id) {
    exists i, j :: 0 <= i < j < |records| && records[i] == a && records[j] == b
  }

  /** The pairs to check: each once, and each in the order of the records. */
  ghost predicate GoodPending(records: seq<Id>, pending: seq<Pair>) {
    && NoDuplicates(records) && NoDuplicates(pending)
    && forall p {:trigger p in pending} :: p in pending ==> Before(records, p.0, p.1)
  }

  /** One part holds every pair of the turn, fits and respects
      the limit; or the parts are one pair with a record cut up. */
  ghost predicate Carries(turn: Iteration, fits: PartFits, maximum: nat) {
    CarriesWhole(turn, fits, maximum) || CarriesSegments(turn, fits)
  }

  ghost predicate CarriesWhole(turn: Iteration, fits: PartFits, maximum: nat) {
    && |turn.parts| == 1 && turn.parts[0].PairCheck? && turn.parts[0].segment.None? && fits(turn.parts[0])
    && |turn.parts[0].records| <= (if maximum > 2 then maximum else 2)
    && (forall p {:trigger p in turn.pairs} :: p in turn.pairs ==> Holds(turn.parts[0].records, p))
    && turn.parts[0].pairs == if |turn.pairs| == 1 then None else Some(turn.pairs)
  }

  ghost predicate CarriesSegments(turn: Iteration, fits: PartFits) {
    |turn.pairs| == 1 && exists split, n :: SegmentsOf(turn.parts, turn.pairs[0], split, n, fits)
  }

  lemma {:induction false} CoveredKeepsOrder(pending: seq<Pair>, members: seq<Id>)
    requires NoDuplicates(pending)
    ensures NoDuplicates(Covered(pending, members))
  {
    if pending != [] {
      var front := pending[..|pending| - 1];
      CoveredKeepsOrder(front, members);
      CoveredMembers(front, members);
      assert forall i :: 0 <= i < |front| ==> front[i] != pending[|pending| - 1];
    }
  }

  lemma {:induction false} WithoutKeepsOrder(pending: seq<Pair>, pairs: seq<Pair>)
    requires NoDuplicates(pending)
    ensures NoDuplicates(Without(pending, pairs))
  {
    if pending != [] {
      var front := pending[..|pending| - 1];
      WithoutKeepsOrder(front, pairs);
      WithoutMembers(front, pairs);
      assert forall i :: 0 <= i < |front| ==> front[i] != pending[|pending| - 1];
    }
  }

  lemma BeforeIsStrict(records: seq<Id>, a: Id, b: Id)
    requires NoDuplicates(records) && Before(records, a, b)
    ensures a != b && !Before(records, b, a) && a in records && b in records
  {
  }

  lemma FirstTwoDiffer(pairs: seq<Pair>)
    requires NoDuplicates(pairs)
    ensures |pairs| > 1 ==> pairs[0] != pairs[1]
  {
  }

  lemma NoDuplicatesSameElement(pairs: seq<Pair>, p: Pair)
    requires NoDuplicates(pairs) && p in pairs && forall q :: q in pairs ==> q == p
    ensures pairs == [p]
  {
    FirstTwoDiffer(pairs);
    forall i | 0 <= i < |pairs| ensures pairs[i] == p {
      assert pairs[i] in pairs;
    }
  }

  /** A pair is the only one that its two records carry, so the call it starts with is a plain one. */
  lemma FirstIsAlone(records: seq<Id>, pending: seq<Pair>)
    requires GoodPending(records, pending) && pending != []
    ensures var p := pending[0]; Packed(records, pending, [p.0, p.1]) == PairCheck([p.0, p.1], None, None)
  {
    hide Covered, InOrder;
    var p := pending[0];
    var pairs := Covered(pending, [p.0, p.1]);
    CoveredMembers(pending, [p.0, p.1]);
    CoveredKeepsOrder(pending, [p.0, p.1]);
    assert p in pending && Holds([p.0, p.1], p);
    BeforeIsStrict(records, p.0, p.1);
    forall q | q in pairs ensures q == p {
      BeforeIsStrict(records, q.0, q.1);
    }
    NoDuplicatesSameElement(pairs, p);
  }

  lemma {:induction false} GrowFits(records: seq<Id>, pending: seq<Pair>, members: seq<Id>, tried: set<Id>,
      fits: PartFits, maximum: nat)
    requires fits(Packed(records, pending, members)) && forall m :: m in members ==> m in records
    ensures var grown := Grow(records, pending, members, tried, fits, maximum);
            && fits(Packed(records, pending, grown))
            && |grown| <= (if maximum > |members| then maximum else |members|)
            && forall m :: m in grown ==> m in records
    decreases |Set(records) - tried|
  {
    hide BestOf, Packed;
    var best := BestOf(records, members, tried, pending);
    if !(|members| >= maximum || best.id.None?) {
      BestIsNew(records, members, tried, pending);
      TriedShrinks(records, tried, best.id.value);
      var more := members + [best.id.value];
      if fits(Packed(records, pending, more)) {
        GrowFits(records, pending, more, tried + {best.id.value}, fits, maximum);
      } else {
        GrowFits(records, pending, members, tried + {best.id.value}, fits, maximum);
      }
    }
  }

  /** A pair that no call can carry: it does not fit as it is, nor with either record cut up. */
  predicate TooLarge(p: Pair, fits: PartFits) {
    !fits(PairCheck([p.0, p.1], None, None)) && SegmentedFrom(p, 2, fits).None?
  }

  /** What fits with a pair among others fits with the pair alone. */
  ghost predicate PairsFitAlone(fits: PartFits) {
    forall records: seq<Id>, pairs: seq<Pair>, p: Pair
        {:trigger fits(PairCheck(records, None, Some(pairs))), p in pairs} ::
      p in pairs && fits(PairCheck(records, None, Some(pairs))) ==> fits(PairCheck([p.0, p.1], None, None))
  }

  /** Packing throws only over a pair that is too large; and over every such one where pairs fit alone if together. */
  lemma {:induction false} ThrowsIffTooLarge(records: seq<Id>, pending: seq<Pair>, fits: PartFits, maximum: nat)
    requires GoodPending(records, pending)
    ensures Packing(records, pending, fits, maximum).None? ==> exists p :: p in pending && TooLarge(p, fits)
    ensures PairsFitAlone(fits) && (exists p :: p in pending && TooLarge(p, fits)) ==>
              Packing(records, pending, fits, maximum).None?
    decreases |pending|
  {
    hide Grow, Covered, Packed, SegmentedFrom, Without, Packing, PairsFitAlone, TooLarge, GoodPending;
    if pending == [] {
      PackingDone(records, fits, maximum);
    } else {
      PackingStep(records, pending, fits, maximum);
      var turn := Iterate(records, pending, fits, maximum);
      assert turn.None? <==> TooLarge(pending[0], fits) by { ThrowsOverTheFirst(records, pending, fits, maximum); }
      if turn.Some? {
        var left := Without(pending, turn.value.pairs);
        WithoutMembers(pending, turn.value.pairs);
        StillGood(records, pending, turn.value.pairs);
        ThrowsIffTooLarge(records, left, fits, maximum);
        if PairsFitAlone(fits) {
          forall p | p in turn.value.pairs ensures !TooLarge(p, fits) {
            SettledFits(records, pending, fits, maximum, p);
          }
        }
      }
    }
  }

  lemma ThrowsOverTheFirst(records: seq<Id>, pending: seq<Pair>, fits: PartFits, maximum: nat)
    requires pending != []
    ensures Iterate(records, pending, fits, maximum).None? <==> TooLarge(pending[0], fits)
  {
    hide Grow, Covered, Packed, SegmentedFrom;
  }

  /** A pair that a turn settles is not too large. */
  lemma SettledFits(records: seq<Id>, pending: seq<Pair>, fits: PartFits, maximum: nat, p: Pair)
    requires GoodPending(records, pending) && pending != [] && PairsFitAlone(fits)
    requires Iterate(records, pending, fits, maximum).Some?
    requires p in Iterate(records, pending, fits, maximum).value.pairs
    ensures !TooLarge(p, fits)
  {
    hide Grow, Covered, SegmentedFrom, InOrder, GoodPending;
    var first := pending[0];
    if fits(PairCheck([first.0, first.1], None, None)) {
      var members := Grow(records, pending, [first.0, first.1], {}, fits, maximum);
      var pairs := Covered(pending, members);
      FirstIsAlone(records, pending);
      FirstIsListed(records, pending);
      GrowFits(records, pending, [first.0, first.1], {}, fits, maximum);
      assert p in pairs;
      if |pairs| != 1 {
        assert fits(PairCheck(InOrder(records, members), None, Some(pairs)));
      }
    }
  }

  lemma FirstIsListed(records: seq<Id>, pending: seq<Pair>)
    requires GoodPending(records, pending) && pending != []
    ensures pending[0].0 in records && pending[0].1 in records
  {
    assert pending[0] in pending;
    BeforeIsStrict(records, pending[0].0, pending[0].1);
  }

  lemma {:induction false} InOrderMembers(records: seq<Id>, members: seq<Id>)
    ensures forall x :: x in InOrder(records, members) <==> x in records && x in members
    ensures NoDuplicates(records) ==> NoDuplicates(InOrder(records, members))
  {
    if records != [] {
      var front := records[..|records| - 1];
      InOrderMembers(front, members);
      assert records == front + [records[|records| - 1]];
      assert NoDuplicates(records) ==> NoDuplicates(front) && records[|records| - 1] !in front;
    }
  }

  lemma {:induction false} NoDuplicatesSize(a: seq<Id>, b: seq<Id>)
    requires NoDuplicates(a) && forall x :: x in a ==> x in b
    ensures |a| <= |b|
  {
    if a != [] {
      var last := a[|a| - 1];
      assert last in a;
      var k :| 0 <= k < |b| && b[k] == last;
      var rest := b[..k] + b[k + 1..];
      forall x | x in a[..|a| - 1] ensures x in rest {
        assert x in a;
        var i :| 0 <= i < |b| && b[i] == x;
        assert if i < k then rest[i] == x else rest[i - 1] == x;
      }
      NoDuplicatesSize(a[..|a| - 1], rest);
    }
  }

  lemma PackedCarries(records: seq<Id>, pending: seq<Pair>, members: seq<Id>, fits: PartFits, maximum: nat)
    requires GoodPending(records, pending) && fits(Packed(records, pending, members))
    requires |members| <= (if maximum > 2 then maximum else 2)
    ensures CarriesWhole(Iteration(Covered(pending, members), [Packed(records, pending, members)]), fits, maximum)
  {
    hide Covered, InOrder;
    var pairs := Covered(pending, members);
    CoveredMembers(pending, members);
    InOrderMembers(records, members);
    NoDuplicatesSize(InOrder(records, members), members);
    forall p | p in pairs ensures Holds(Packed(records, pending, members).records, p) {
      BeforeIsStrict(records, p.0, p.1);
    }
  }

  lemma TurnCarries(records: seq<Id>, pending: seq<Pair>, fits: PartFits, maximum: nat)
    requires GoodPending(records, pending) && pending != [] && Iterate(records, pending, fits, maximum).Some?
    ensures Carries(Iterate(records, pending, fits, maximum).value, fits, maximum)
  {
    hide Grow, Packed, Covered, SegmentedFrom, CarriesWhole, SegmentsOf;
    var p := pending[0];
    TurnIs(records, pending, fits, maximum);
    if fits(PairCheck([p.0, p.1], None, None)) {
      FirstIsAlone(records, pending);
      assert p in pending;
      BeforeIsStrict(records, p.0, p.1);
      GrowFits(records, pending, [p.0, p.1], {}, fits, maximum);
      PackedCarries(records, pending, Grow(records, pending, [p.0, p.1], {}, fits, maximum), fits, maximum);
    } else {
      SegmentedFits(p, 2, fits);
      var turn := Iterate(records, pending, fits, maximum).value;
      assert turn.pairs == [p] && turn.pairs[0] == p;
      var split, n :| SegmentsOf(turn.parts, p, split, n, fits);
      assert CarriesSegments(turn, fits);
    }
  }

  lemma StillGood(records: seq<Id>, pending: seq<Pair>, pairs: seq<Pair>)
    requires GoodPending(records, pending)
    ensures GoodPending(records, Without(pending, pairs))
  {
    hide Without, Before;
    WithoutMembers(pending, pairs);
    WithoutKeepsOrder(pending, pairs);
  }

  /** Every part the loop emits carries its turn's pairs: whole,
      fitting and within the limit, or as exact segments that fit. */
  lemma {:induction false} EveryTurnCarries(records: seq<Id>, pending: seq<Pair>, fits: PartFits, maximum: nat)
    requires GoodPending(records, pending) && Packing(records, pending, fits, maximum).Some?
    ensures forall turn {:trigger turn in Packing(records, pending, fits, maximum).value} ::
              turn in Packing(records, pending, fits, maximum).value ==> Carries(turn, fits, maximum)
    decreases |pending|
  {
    hide Packing, Iterate, Without, Carries, GoodPending;
    if pending == [] {
      PackingDone(records, fits, maximum);
    } else {
      PackingStep(records, pending, fits, maximum);
      TurnCarries(records, pending, fits, maximum);
      var turn := Iterate(records, pending, fits, maximum).value;
      StillGood(records, pending, turn.pairs);
      EveryTurnCarries(records, Without(pending, turn.pairs), fits, maximum);
    }
  }

  // ----- The pairs of different batches

  /** The two records are in two batches, the first in the earlier one. */
  ghost predicate Crosses(batches: seq<seq<Id>>, p: Pair) {
    exists a, b :: 0 <= a < b < |batches| && p.0 in batches[a] && p.1 in batches[b]
  }

  /** `pending.set`: a key set again keeps its place. */
  function AddPair(pending: seq<Pair>, p: Pair): seq<Pair> { if p in pending then pending else pending + [p] }

  /** The pairs of one batch with one later batch. */
  method AddPairs(pending: seq<Pair>, left: seq<Id>, right: seq<Id>) returns (more: seq<Pair>)
    requires NoDuplicates(pending)
    ensures NoDuplicates(more) && forall p :: p in more <==> p in pending || (p.0 in left && p.1 in right)
  {
    more := pending;
    for i := 0 to |left|
      invariant NoDuplicates(more) && forall p :: p in more <==> p in pending || (p.0 in left[..i] && p.1 in right)
    {
      PrefixStep(left, i);
      ghost var before := more;
      for j := 0 to |right|
        invariant NoDuplicates(more) && forall p :: p in more <==> p in before || (p.0 == left[i] && p.1 in right[..j])
      {
        PrefixStep(right, j);
        more := AddPair(more, (left[i], right[j]));
      }
      assert right[..|right|] == right;
    }
    assert left[..|left|] == left;
  }

  ghost predicate CrossesBefore(batches: seq<seq<Id>>, a: nat, b: nat, p: Pair) {
    || (exists x, y :: 0 <= x < a && x < y < |batches| && x < |batches| && p.0 in batches[x] && p.1 in batches[y])
    || (exists y :: a < y < b && y < |batches| && p.0 in batches[a] && p.1 in batches[y])
  }

  lemma NextBatch(batches: seq<seq<Id>>, a: nat, b: nat, p: Pair)
    requires a < b < |batches|
    ensures CrossesBefore(batches, a, b + 1, p) <==>
            CrossesBefore(batches, a, b, p) || (p.0 in batches[a] && p.1 in batches[b])
  {
  }

  lemma NextRow(batches: seq<seq<Id>>, a: nat, p: Pair)
    requires a < |batches|
    ensures CrossesBefore(batches, a, |batches|, p) <==> CrossesBefore(batches, a + 1, a + 2, p)
  {
  }

  /** The pairs still to check at the start: those of every batch with every later one. */
  method CrossPairs(batches: seq<seq<Id>>) returns (pending: seq<Pair>)
    ensures NoDuplicates(pending) && forall p :: p in pending <==> Crosses(batches, p)
  {
    hide CrossesBefore;
    pending := [];
    NothingCrosses(batches);
    for a := 0 to |batches|
      invariant NoDuplicates(pending) && forall p :: p in pending <==> CrossesBefore(batches, a, a + 1, p)
    {
      for b := a + 1 to |batches|
        invariant NoDuplicates(pending) && forall p :: p in pending <==> CrossesBefore(batches, a, b, p)
      {
        ghost var before := pending;
        pending := AddPairs(pending, batches[a], batches[b]);
        forall p ensures p in pending <==> CrossesBefore(batches, a, b + 1, p) {
          NextBatch(batches, a, b, p);
          assert p in before <==> CrossesBefore(batches, a, b, p);
        }
      }
      forall p ensures p in pending <==> CrossesBefore(batches, a + 1, a + 2, p) {
        NextRow(batches, a, p);
      }
    }
    forall p ensures p in pending <==> Crosses(batches, p) {
      AllCrossed(batches, p);
    }
  }

  lemma NothingCrosses(batches: seq<seq<Id>>)
    ensures forall p :: !CrossesBefore(batches, 0, 1, p)
  {
  }

  lemma AllCrossed(batches: seq<seq<Id>>, p: Pair)
    ensures CrossesBefore(batches, |batches|, |batches| + 1, p) <==> Crosses(batches, p)
  {
  }

  // ----- All parts

  /** Where the batch at `a` starts in the flattened list. */
  lemma {:induction false} FlattenAt(lists: seq<seq<Id>>, a: nat, i: nat) returns (k: nat)
    requires a < |lists| && i < |lists[a]|
    ensures k < |Flatten(lists)| && Flatten(lists)[k] == lists[a][i]
    ensures |Flatten(lists[..a])| <= k < |Flatten(lists[..a + 1])|
  {
    var n := |lists| - 1;
    if a == n {
      k := |Flatten(lists[..n])| + i;
      assert lists[..n + 1] == lists;
    } else {
      k := FlattenAt(lists[..n], a, i);
      assert lists[..n][..a] == lists[..a] && lists[..n][..a + 1] == lists[..a + 1];
    }
  }

  lemma {:induction false} FlattenGrows(lists: seq<seq<Id>>, a: nat, b: nat)
    requires a <= b <= |lists|
    ensures |Flatten(lists[..a])| <= |Flatten(lists[..b])|
    decreases b
  {
    if a < b {
      FlattenGrows(lists, a, b - 1);
      assert lists[..b][..b - 1] == lists[..b - 1];
    }
  }

  lemma CrossingIsBefore(batches: seq<seq<Id>>, p: Pair)
    requires Crosses(batches, p)
    ensures Before(Flatten(batches), p.0, p.1)
  {
    hide Flatten;
    var a, b :| 0 <= a < b < |batches| && p.0 in batches[a] && p.1 in batches[b];
    var i :| 0 <= i < |batches[a]| && batches[a][i] == p.0;
    var j :| 0 <= j < |batches[b]| && batches[b][j] == p.1;
    var k := FlattenAt(batches, a, i);
    var l := FlattenAt(batches, b, j);
    FlattenGrows(batches, a + 1, b);
  }

  /** Two records of the flattened list are in one batch or cross. */
  lemma {:induction false} BatchesOf(batches: seq<seq<Id>>, i: nat, j: nat)
    requires i < j < |Flatten(batches)|
    ensures (exists a :: 0 <= a < |batches| && Flatten(batches)[i] in batches[a] && Flatten(batches)[j] in batches[a])
         || Crosses(batches, (Flatten(batches)[i], Flatten(batches)[j]))
  {
    var n := |batches| - 1;
    var front := Flatten(batches[..n]);
    if j < |front| {
      BatchesOf(batches[..n], i, j);
      assert forall a :: 0 <= a < n ==> batches[..n][a] == batches[a];
    } else if i >= |front| {
      assert Flatten(batches)[i] in batches[n] && Flatten(batches)[j] in batches[n];
    } else {
      FlattenMembers(batches[..n], front[i]);
      var a :| 0 <= a < n && front[i] in batches[..n][a];
      assert Flatten(batches)[j] == batches[n][j - |front|];
    }
  }

  function Reviews(batches: seq<seq<Id>>): seq<Part> {
    if batches == [] then [] else Reviews(batches[..|batches| - 1]) + [Review(batches[|batches| - 1])]
  }

  lemma {:induction false} ReviewAt(batches: seq<seq<Id>>, part: Part)
    ensures part in Reviews(batches) <==> part.Review? && part.records in batches
  {
    if batches != [] {
      ReviewAt(batches[..|batches| - 1], part);
      assert batches == batches[..|batches| - 1] + [batches[|batches| - 1]];
    }
  }

  ghost predicate Together(parts: seq<Part>, a: Id, b: Id) {
    exists part {:trigger part in parts} :: part in parts && a in part.records && b in part.records
  }

  /** A part can be read: it fits, or it is one record that is
      required; it holds at most `maximum` records, and a pair always. */
  ghost predicate Readable(part: Part, fits: PartFits, admits: PartFits, maximum: nat) {
    && (fits(part) || (part.Review? && |part.records| == 1 && admits(part)))
    && |part.records| <= (if maximum > 2 then maximum else 2)
  }

  lemma {:induction false} TimesFinds(turns: seq<Iteration>, p: Pair) returns (k: nat)
    requires Times(turns, p) >= 1
    ensures k < |turns| && p in turns[k].pairs
  {
    if p in turns[0].pairs {
      k := 0;
    } else {
      k := TimesFinds(turns[1..], p);
      k := k + 1;
    }
  }

  lemma {:induction false} PartsMembers(turns: seq<Iteration>, part: Part)
    ensures part in PartsOf(turns) <==> exists k :: 0 <= k < |turns| && part in turns[k].parts
  {
    if turns != [] {
      PartsMembers(turns[..|turns| - 1], part);
      assert forall k :: 0 <= k < |turns| - 1 ==> turns[..|turns| - 1][k] == turns[k];
    }
  }

  /** The parts of a turn are readable, and hold both records of each of its pairs. */
  lemma CarriedIsReadable(turn: Iteration, fits: PartFits, admits: PartFits, maximum: nat)
    requires Carries(turn, fits, maximum)
    ensures forall part :: part in turn.parts ==> Readable(part, fits, admits, maximum)
    ensures forall p {:trigger p in turn.pairs} :: p in turn.pairs ==>
            exists part :: part in turn.parts && Holds(part.records, p)
  {
    if CarriesSegments(turn, fits) {
      var split, n :| SegmentsOf(turn.parts, turn.pairs[0], split, n, fits);
      forall part | part in turn.parts ensures Readable(part, fits, admits, maximum) {
        var i :| 0 <= i < n && turn.parts[i] == part;
      }
      assert turn.parts[0] in turn.parts && Holds(turn.parts[0].records, turn.pairs[0]);
    } else {
      assert turn.parts[0] in turn.parts;
    }
  }

  lemma CrossingMeets(records: seq<Id>, pending: seq<Pair>, fits: PartFits, maximum: nat, p: Pair)
    requires GoodPending(records, pending) && Packing(records, pending, fits, maximum).Some? && p in pending
    ensures Together(PartsOf(Packing(records, pending, fits, maximum).value), p.0, p.1)
  {
    hide Packing, GoodPending, Carries, PartsOf;
    var turns := Packing(records, pending, fits, maximum).value;
    EachPairOnce(records, pending, fits, maximum, p);
    EveryTurnCarries(records, pending, fits, maximum);
    var k := TimesFinds(turns, p);
    assert turns[k] in turns;
    CarriedIsReadable(turns[k], fits, fits, maximum);
    var part :| part in turns[k].parts && Holds(part.records, p);
    PartsMembers(turns, part);
  }

  lemma TurnsAreReadable(records: seq<Id>, pending: seq<Pair>, fits: PartFits, admits: PartFits, maximum: nat)
    requires GoodPending(records, pending) && Packing(records, pending, fits, maximum).Some?
    ensures forall part :: part in PartsOf(Packing(records, pending, fits, maximum).value) ==>
            Readable(part, fits, admits, maximum)
  {
    hide Packing, GoodPending, Carries, PartsOf, Readable;
    var turns := Packing(records, pending, fits, maximum).value;
    EveryTurnCarries(records, pending, fits, maximum);
    forall part | part in PartsOf(turns) ensures Readable(part, fits, admits, maximum) {
      PartsMembers(turns, part);
      var k :| 0 <= k < |turns| && part in turns[k].parts;
      assert turns[k] in turns;
      CarriedIsReadable(turns[k], fits, admits, maximum);
    }
  }

  lemma ReviewsAreReadable(batches: seq<seq<Id>>, fits: PartFits, admits: PartFits, maximum: nat)
    requires GoodBatches(batches, maximum, ids => fits(Review(ids)), ids => admits(Review(ids)))
    ensures forall part :: part in Reviews(batches) ==> Readable(part, fits, admits, maximum)
  {
    forall part | part in Reviews(batches) ensures Readable(part, fits, admits, maximum) {
      ReviewAt(batches, part);
      var i :| 0 <= i < |batches| && batches[i] == part.records;
      assert GoodBatch(batches[i], maximum, ids => fits(Review(ids)), ids => admits(Review(ids)));
      assert part == Review(batches[i]);
    }
  }

  lemma BatchMeets(records: seq<Id>, batches: seq<seq<Id>>, pending: seq<Pair>, parts: seq<Part>, i: nat, j: nat)
    requires Flatten(batches) == records && i < j < |records|
    requires forall p {:trigger p in pending} :: p in pending <==> Crosses(batches, p)
    requires forall p {:trigger p in pending} :: p in pending ==> Together(parts, p.0, p.1)
    ensures Together(Reviews(batches) + parts, records[i], records[j])
  {
    hide Flatten, Crosses, Reviews;
    BatchesOf(batches, i, j);
    if Crosses(batches, (records[i], records[j])) {
      assert (records[i], records[j]) in pending;
      var part :| part in parts && records[i] in part.records && records[j] in part.records;
      assert part in Reviews(batches) + parts;
    } else {
      var a :| 0 <= a < |batches| && records[i] in batches[a] && records[j] in batches[a];
      ReviewAt(batches, Review(batches[a]));
      assert Review(batches[a]) in Reviews(batches) + parts;
    }
  }

  lemma EachIsReviewed(records: seq<Id>, batches: seq<seq<Id>>)
    requires Flatten(batches) == records
    ensures forall id :: id in records ==> exists part :: part in Reviews(batches) && id in part.records
  {
    forall id | id in records ensures exists part :: part in Reviews(batches) && id in part.records {
      FlattenMembers(batches, id);
      var a :| 0 <= a < |batches| && id in batches[a];
      ReviewAt(batches, Review(batches[a]));
    }
  }

  /** Every record is in a part that reviews it whole; every two records are in one part, where pairs are checked. */
  ghost predicate Complete(records: seq<Id>, parts: seq<Part>, pairChecks: bool) {
    && (forall id {:trigger id in records} :: id in records ==>
        exists part :: part in parts && !part.PairCheck? && id in part.records)
    && (pairChecks ==> forall i, j {:trigger records[i], records[j]} :: 0 <= i < j < |records| ==>
        Together(parts, records[i], records[j]))
  }

  lemma FullIsComplete(records: seq<Id>, pairChecks: bool)
    ensures Complete(records, [Full(records)], pairChecks)
  {
    assert Full(records) in [Full(records)];
  }

  lemma PartsAreComplete(records: seq<Id>, batches: seq<seq<Id>>, pending: seq<Pair>, fits: PartFits, maximum: nat)
    requires Flatten(batches) == records && GoodPending(records, pending)
             && Packing(records, pending, fits, maximum).Some?
    requires forall p {:trigger p in pending} :: p in pending <==> Crosses(batches, p)
    ensures Complete(records, Reviews(batches) + PartsOf(Packing(records, pending, fits, maximum).value), true)
  {
    hide Flatten, Crosses, Reviews, GoodPending, Packing, PartsOf, Together;
    var packed := PartsOf(Packing(records, pending, fits, maximum).value);
    var parts := Reviews(batches) + packed;
    EachIsReviewed(records, batches);
    forall id | id in records ensures exists part :: part in parts && !part.PairCheck? && id in part.records {
      var part :| part in Reviews(batches) && id in part.records;
      ReviewAt(batches, part);
      assert part in parts;
    }
    forall p | p in pending ensures Together(packed, p.0, p.1) {
      CrossingMeets(records, pending, fits, maximum, p);
    }
    forall i, j | 0 <= i < j < |records| ensures Together(parts, records[i], records[j]) {
      BatchMeets(records, batches, pending, packed, i, j);
    }
  }

  lemma CrossingIsGood(records: seq<Id>, batches: seq<seq<Id>>, pending: seq<Pair>)
    requires Flatten(batches) == records && NoDuplicates(records) && NoDuplicates(pending)
    requires forall p {:trigger p in pending} :: p in pending <==> Crosses(batches, p)
    ensures GoodPending(records, pending)
  {
    hide Flatten, Crosses, Before;
    forall p | p in pending ensures Before(records, p.0, p.1) {
      CrossingIsBefore(batches, p);
    }
  }

  /** Why a critique throws: a record is named twice, there is none to split, or one or a pair of them fits nowhere. */
  ghost predicate CannotBeRead(records: seq<Id>, maximum: nat, fits: PartFits, admits: PartFits, pairChecks: bool) {
    || records == [] || maximum < 1
    || (exists i :: 0 <= i < |records| && !fits(Review([records[i]])) && !admits(Review([records[i]])))
    || (pairChecks && exists i, j :: 0 <= i < j < |records| && TooLarge((records[i], records[j]), fits))
  }

  /**
   * The parts of a critique: none where it throws. Each part can be read; each record
   * is reviewed whole; and with pair checks, every two records are read together.
   */
  method ContextParts(records: seq<Id>, maximum: nat, fits: PartFits, admits: PartFits, pairChecks: bool)
    returns (parts: Option<seq<Part>>)
    ensures NoDuplicates(records) && |records| <= maximum && fits(Full(records)) ==> parts == Some([Full(records)])
    ensures parts.None? && NoDuplicates(records) ==> CannotBeRead(records, maximum, fits, admits, pairChecks)
    ensures parts.Some? && parts.value != [Full(records)] ==> records != [] && maximum >= 1
    ensures parts.Some? ==> Complete(records, parts.value, pairChecks)
    ensures parts.Some? ==> forall part :: part in parts.value ==> Readable(part, fits, admits, maximum)
    ensures parts.Some? ==> NoDuplicates(records)
  {
    hide Distinct, Flatten, Complete, Readable, Reviews, GoodBatches, GoodPending, Crosses, Packing, PartsOf, Partition,
      TooLarge;
    DistinctMembers(records);
    if Distinct(records) != records {
      return None;
    }
    if |records| <= maximum && fits(Full(records)) {
      FullIsComplete(records, pairChecks);
      FullIsReadable(records, fits, admits, maximum);
      return Some([Full(records)]);
    }
    if records == [] {
      return None;
    }
    var primary := ReviewPartition(records, maximum, ids => fits(Review(ids)), ids => admits(Review(ids)));
    if primary.None? {
      ReviewsRefused(records, maximum, fits, admits, pairChecks);
      return None;
    }
    ReviewsAreReadable(primary.value, fits, admits, maximum);
    if !pairChecks {
      ReviewsAreComplete(records, primary.value);
      return Some(Reviews(primary.value));
    }
    var crossing := CrossPairs(primary.value);
    var packed, turns := PackPairs(records, crossing, fits, maximum);
    CrossingIsGood(records, primary.value, crossing);
    if packed.None? {
      PairRefused(records, crossing, fits, maximum);
      return None;
    }
    PartsAreComplete(records, primary.value, crossing, fits, maximum);
    TurnsAreReadable(records, crossing, fits, admits, maximum);
    parts := Some(Reviews(primary.value) + packed.value);
  }

  lemma ReviewsRefused(records: seq<Id>, maximum: nat, fits: PartFits, admits: PartFits, pairChecks: bool)
    requires maximum < 1
             || Partition(records, maximum, ids => fits(Review(ids)), ids => admits(Review(ids))).None?
    ensures CannotBeRead(records, maximum, fits, admits, pairChecks)
  {
    hide Place, TooLarge;
    if maximum >= 1 {
      RefusedIffTooLarge(records, maximum, ids => fits(Review(ids)), ids => admits(Review(ids)));
    }
  }

  lemma PairRefused(records: seq<Id>, crossing: seq<Pair>, fits: PartFits, maximum: nat)
    requires GoodPending(records, crossing) && Packing(records, crossing, fits, maximum).None?
    ensures exists i, j :: 0 <= i < j < |records| && TooLarge((records[i], records[j]), fits)
  {
    hide Packing, TooLarge;
    ThrowsIffTooLarge(records, crossing, fits, maximum);
    var p :| p in crossing && TooLarge(p, fits);
    assert Before(records, p.0, p.1);
    var i, j :| 0 <= i < j < |records| && records[i] == p.0 && records[j] == p.1;
    assert TooLarge((records[i], records[j]), fits);
  }

  lemma FullIsReadable(records: seq<Id>, fits: PartFits, admits: PartFits, maximum: nat)
    requires |records| <= maximum && fits(Full(records))
    ensures Readable(Full(records), fits, admits, maximum)
  {
  }

  lemma ReviewsAreComplete(records: seq<Id>, batches: seq<seq<Id>>)
    requires Flatten(batches) == records
    ensures Complete(records, Reviews(batches), false)
  {
    hide Reviews, Flatten;
    EachIsReviewed(records, batches);
    forall id | id in records
      ensures exists part :: part in Reviews(batches) && !part.PairCheck? && id in part.records
    {
      var part :| part in Reviews(batches) && id in part.records;
      ReviewAt(batches, part);
    }
  }
}
