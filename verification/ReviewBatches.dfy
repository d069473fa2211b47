/** Review batches: complete records in order, as many to a batch as fit; and a record cut into exact segments. */
module ReviewBatches {
  import opened Options
  import opened Sequences

  /** A record's ID. */
  type Id = nat

  /** `fits` and `admits` of a batch. */
  type Judge = seq<Id> -> bool

  // ----- Partition

  /** The batches so far and the one being filled. */
  datatype Batches = Batches(full: seq<seq<Id>>, current: seq<Id>)

  function Close(b: Batches): seq<seq<Id>> { if b.current == [] then b.full else b.full + [b.current] }

  /** One more record: none where it fits no batch and is not required. */
  function Place(b: Batches, id: Id, maximum: nat, fits: Judge, admits: Judge): Option<Batches> {
    if |b.current| + 1 <= maximum && fits(b.current + [id]) then Some(Batches(b.full, b.current + [id]))
    else if fits([id]) then Some(Batches(Close(b), [id]))
    else if admits([id]) then Some(Batches(Close(b) + [[id]], []))
    else None
  }

  function PlaceAll(ids: seq<Id>, maximum: nat, fits: Judge, admits: Judge): Option<Batches> {
    if ids == [] then Some(Batches([], []))
    else
      var front := PlaceAll(ids[..|ids| - 1], maximum, fits, admits);
      if front.None? then None else Place(front.value, ids[|ids| - 1], maximum, fits, admits)
  }

  function Partition(ids: seq<Id>, maximum: nat, fits: Judge, admits: Judge): Option<seq<seq<Id>>> {
    var r := PlaceAll(ids, maximum, fits, admits);
    if r.None? then None else Some(Close(r.value))
  }

  /** A batch is not empty, within the limit, and either fits or is one required record. */
  ghost predicate GoodBatch(batch: seq<Id>, maximum: nat, fits: Judge, admits: Judge) {
    && batch != [] && |batch| <= maximum
    && (fits(batch) || (|batch| == 1 && admits(batch)))
  }

  ghost predicate GoodBatches(batches: seq<seq<Id>>, maximum: nat, fits: Judge, admits: Judge) {
    forall i {:trigger batches[i]} :: 0 <= i < |batches| ==> GoodBatch(batches[i], maximum, fits, admits)
  }

  lemma CloseAppend(b: Batches)
    ensures Flatten(Close(b)) == Flatten(b.full) + b.current
  {
    if b.current != [] { FlattenAppend(b.full, b.current); }
  }

  lemma PlaceKeeps(b: Batches, id: Id, maximum: nat, fits: Judge, admits: Judge)
    requires maximum >= 1 && GoodBatches(Close(b), maximum, fits, admits) && Place(b, id, maximum, fits, admits).Some?
    ensures var after := Place(b, id, maximum, fits, admits).value;
            GoodBatches(Close(after), maximum, fits, admits) && Flatten(Close(after)) == Flatten(Close(b)) + [id]
  {
    hide Flatten;
    var after := Place(b, id, maximum, fits, admits).value;
    CloseAppend(b);
    CloseAppend(after);
    FlattenAppend(Close(b), [id]);
    assert forall i {:trigger b.full[i]} :: 0 <= i < |b.full| ==> b.full[i] == Close(b)[i];
  }

  /** The batches hold every record once and in order, and each can be reviewed. */
  lemma {:induction false} PartitionIsExact(ids: seq<Id>, maximum: nat, fits: Judge, admits: Judge)
    requires maximum >= 1 && PlaceAll(ids, maximum, fits, admits).Some?
    ensures var batches := Close(PlaceAll(ids, maximum, fits, admits).value);
            && Flatten(batches) == ids && GoodBatches(batches, maximum, fits, admits)
            && Partition(ids, maximum, fits, admits) == Some(batches)
  {
    hide Place, Close, GoodBatches;
    if ids == [] {
      NoBatches(maximum, fits, admits);
    } else {
      var n := |ids| - 1;
      PartitionIsExact(ids[..n], maximum, fits, admits);
      PlaceKeeps(PlaceAll(ids[..n], maximum, fits, admits).value, ids[n], maximum, fits, admits);
      assert ids == ids[..n] + [ids[n]];
    }
  }

  lemma NoBatches(maximum: nat, fits: Judge, admits: Judge)
    ensures Close(Batches([], [])) == [] && GoodBatches([], maximum, fits, admits)
  {
  }

  /** Each batch that fits has no room for the record that begins the next one. */
  ghost predicate FullBatches(batches: seq<seq<Id>>, maximum: nat, fits: Judge) {
    forall i {:trigger batches[i]} :: 0 <= i < |batches| - 1 && fits(batches[i]) && batches[i + 1] != [] ==>
      |batches[i]| >= maximum || !fits(batches[i] + [batches[i + 1][0]])
  }

  lemma PlaceFills(b: Batches, id: Id, maximum: nat, fits: Judge, admits: Judge)
    requires FullBatches(Close(b), maximum, fits) && Place(b, id, maximum, fits, admits).Some?
    requires b.current == [] && b.full != [] ==> !fits(b.full[|b.full| - 1])
    ensures var after := Place(b, id, maximum, fits, admits).value;
            && FullBatches(Close(after), maximum, fits)
            && (after.current == [] && after.full != [] ==> !fits(after.full[|after.full| - 1]))
  {
    var after := Place(b, id, maximum, fits, admits).value;
    var was, now := Close(b), Close(after);
    forall i {:trigger now[i]} | 0 <= i < |now| - 1 && fits(now[i]) && now[i + 1] != []
      ensures |now[i]| >= maximum || !fits(now[i] + [now[i + 1][0]])
    {
      if i + 1 < |was| {
        assert was[i] == now[i] && (was[i + 1] != [] ==> was[i + 1][0] == now[i + 1][0]);
      }
    }
  }

  /** The partition is greedy: it closes a batch only when the next record has no room in it. */
  lemma {:induction false} BatchesAreFull(ids: seq<Id>, maximum: nat, fits: Judge, admits: Judge)
    requires PlaceAll(ids, maximum, fits, admits).Some?
    ensures var b := PlaceAll(ids, maximum, fits, admits).value;
            && FullBatches(Close(b), maximum, fits)
            && (b.current == [] && b.full != [] ==> !fits(b.full[|b.full| - 1]))
  {
    hide Place, FullBatches, Close;
    if ids == [] {
      NoBatchesAreFull(maximum, fits);
    } else {
      var n := |ids| - 1;
      BatchesAreFull(ids[..n], maximum, fits, admits);
      PlaceFills(PlaceAll(ids[..n], maximum, fits, admits).value, ids[n], maximum, fits, admits);
    }
  }

  lemma NoBatchesAreFull(maximum: nat, fits: Judge)
    ensures FullBatches(Close(Batches([], [])), maximum, fits)
  {
  }

  /** A part of a batch that fits, fits. */
  ghost predicate LastFitsAlone(fits: Judge) {
    forall ids, id {:trigger fits(ids + [id])} :: fits(ids + [id]) ==> fits([id])
  }

  /** The partition refuses the records only over one that neither fits alone
      nor is required; and over every such one when smaller batches fit. */
  lemma {:induction false} RefusedIffTooLarge(ids: seq<Id>, maximum: nat, fits: Judge, admits: Judge)
    ensures PlaceAll(ids, maximum, fits, admits).None? <==> Partition(ids, maximum, fits, admits).None?
    ensures PlaceAll(ids, maximum, fits, admits).None? ==>
            exists i :: 0 <= i < |ids| && !fits([ids[i]]) && !admits([ids[i]])
    ensures LastFitsAlone(fits) && (exists i :: 0 <= i < |ids| && !fits([ids[i]]) && !admits([ids[i]])) ==>
            PlaceAll(ids, maximum, fits, admits).None?
  {
    if ids != [] {
      var n := |ids| - 1;
      RefusedIffTooLarge(ids[..n], maximum, fits, admits);
      assert forall i :: 0 <= i < n ==> ids[..n][i] == ids[i];
    }
  }

  /** `reviewPartition`: none where it throws. */
  method ReviewPartition(ids: seq<Id>, maximum: nat, fits: Judge, admits: Judge) returns (batches: Option<seq<seq<Id>>>)
    ensures batches == if maximum < 1 || Distinct(ids) != ids then None else Partition(ids, maximum, fits, admits)
    ensures batches.Some? ==> Flatten(batches.value) == ids && GoodBatches(batches.value, maximum, fits, admits)
  {
    hide Flatten, GoodBatches, Distinct, Place;
    if maximum < 1 || Distinct(ids) != ids {
      return None;
    }
    var b := Batches([], []);
    for i := 0 to |ids|
      invariant PlaceAll(ids[..i], maximum, fits, admits) == Some(b)
    {
      PrefixStep(ids, i);
      var placed := Place(b, ids[i], maximum, fits, admits);
      if placed.None? {
        RefusedPrefix(ids, i + 1, maximum, fits, admits);
        return None;
      }
      b := placed.value;
    }
    assert ids[..|ids|] == ids;
    PartitionIsExact(ids, maximum, fits, admits);
    batches := Some(Close(b));
  }

  lemma {:induction false} RefusedPrefix(ids: seq<Id>, n: nat, maximum: nat, fits: Judge, admits: Judge)
    requires n <= |ids| && PlaceAll(ids[..n], maximum, fits, admits).None?
    ensures PlaceAll(ids, maximum, fits, admits).None?
    decreases |ids|
  {
    hide Place;
    if n == |ids| {
      assert ids[..n] == ids;
    } else {
      assert ids[..|ids| - 1][..n] == ids[..n];
      RefusedPrefix(ids[..|ids| - 1], n, maximum, fits, admits);
    }
  }

  // ----- Segments

  function CeilDiv(a: nat, b: nat): nat
    requires b > 0
  {
    (a + b - 1) / b
  }

  function Slice<T>(text: seq<T>, from: nat, to: nat): seq<T>
    requires from <= to
  {
    if from >= |text| then [] else if to <= |text| then text[from..to] else text[from..]
  }

  /** `segmentText`: the part of the text that segment `index` of `count` carries. */
  function SegmentText<T>(text: seq<T>, index: nat, count: nat): seq<T>
    requires index < count
  {
    var size := CeilDiv(|text|, count);
    SizesGrow(index, size);
    Slice(text, index * size, (index + 1) * size)
  }

  lemma SizesGrow(index: nat, size: nat)
    ensures index * size + size == (index + 1) * size
  {
  }

  /** The first `n` segments, one after another. */
  function Joined<T>(text: seq<T>, n: nat, count: nat): seq<T>
    requires n <= count
  {
    if n == 0 then [] else Joined(text, n - 1, count) + SegmentText(text, n - 1, count)
  }

  lemma CeilCovers(length: nat, count: nat)
    requires count > 0
    ensures length <= count * CeilDiv(length, count)
  {
    var q, r := (length + count - 1) / count, (length + count - 1) % count;
    assert length + count - 1 == q * count + r;
    assert q * count == count * q;
  }

  lemma SliceJoins<T>(text: seq<T>, from: nat, to: nat)
    requires from <= to
    ensures Slice(text, 0, from) + Slice(text, from, to) == Slice(text, 0, to)
  {
  }

  lemma {:induction false} JoinedIsPrefix<T>(text: seq<T>, n: nat, count: nat)
    requires n <= count && count > 0
    ensures Joined(text, n, count) == Slice(text, 0, n * CeilDiv(|text|, count))
  {
    var size := CeilDiv(|text|, count);
    if n > 0 {
      JoinedIsPrefix(text, n - 1, count);
      SizesGrow(n - 1, size);
      SliceJoins(text, (n - 1) * size, n * size);
    }
  }

  /** The text is cut as evenly as it can be: no segment is longer than its share, rounded up. */
  lemma SegmentsAreEven<T>(text: seq<T>, index: nat, count: nat)
    requires index < count
    ensures |SegmentText(text, index, count)| * count < |text| + count
  {
    var size := CeilDiv(|text|, count);
    SizesGrow(index, size);
    var length := |SegmentText(text, index, count)|;
    assert length <= size;
    assert size * count <= |text| + count - 1;
    assert length * count <= size * count by { ScaledAtMost(length, size, count); }
  }

  lemma ScaledAtMost(a: nat, b: nat, factor: nat)
    requires a <= b
    ensures a * factor <= b * factor
  {
  }

  /** The segments of a text, one after another, are the whole text. */
  lemma SegmentsRestoreTheText<T>(text: seq<T>, count: nat)
    requires count > 0
    ensures Joined(text, count, count) == text
  {
    JoinedIsPrefix(text, count, count);
    CeilCovers(|text|, count);
  }
}
