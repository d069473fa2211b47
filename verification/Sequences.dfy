/** Sequence functions shared by the models, defined from the end so that loops extend them. */
module Sequences {

  /** `lists.flat()`. */
  function Flatten<T>(lists: seq<seq<T>>): seq<T> {
    if lists == [] then [] else Flatten(lists[..|lists| - 1]) + lists[|lists| - 1]
  }

  /** `items.filter(keep)`. */
  function Filter<T>(items: seq<T>, keep: T -> bool): seq<T> {
    if items == [] then []
    else
      var last := items[|items| - 1];
      Filter(items[..|items| - 1], keep) + if keep(last) then [last] else []
  }

  lemma {:induction false} FilterMembers<T(!new)>(items: seq<T>, keep: T -> bool)
    ensures |Filter(items, keep)| <= |items|
    ensures forall x :: x in Filter(items, keep) <==> x in items && keep(x)
  {
    if items != [] {
      FilterMembers(items[..|items| - 1], keep);
      assert items == items[..|items| - 1] + [items[|items| - 1]];
    }
  }

  /** `items.map(f)`. */
  function Map<T, U>(items: seq<T>, f: T -> U): (mapped: seq<U>)
    ensures |mapped| == |items|
    ensures forall i :: 0 <= i < |items| ==> mapped[i] == f(items[i])
  {
    seq(|items|, i requires 0 <= i < |items| => f(items[i]))
  }

  /** `[...new Set(items)]`. */
  function Distinct<T(==)>(items: seq<T>): seq<T> {
    if items == [] then []
    else
      var last := items[|items| - 1];
      var rest := Distinct(items[..|items| - 1]);
      if last in rest then rest else rest + [last]
  }

  lemma {:induction false} DistinctMembers<T(!new)>(items: seq<T>)
    ensures forall x :: x in Distinct(items) <==> x in items
    ensures NoDuplicates(Distinct(items))
    ensures NoDuplicates(items) ==> Distinct(items) == items
  {
    if items != [] {
      DistinctMembers(items[..|items| - 1]);
      assert items == items[..|items| - 1] + [items[|items| - 1]];
    }
  }

  ghost predicate NoDuplicates<T>(items: seq<T>) {
    forall i, j :: 0 <= i < j < |items| ==> items[i] != items[j]
  }

  lemma FlattenAppend<T>(lists: seq<seq<T>>, last: seq<T>)
    ensures Flatten(lists + [last]) == Flatten(lists) + last
  {
    assert (lists + [last])[..|lists|] == lists;
  }

  lemma {:induction false} FlattenConcat<T>(a: seq<seq<T>>, b: seq<seq<T>>)
    ensures Flatten(a + b) == Flatten(a) + Flatten(b)
  {
    if b == [] {
      assert a + b == a;
    } else {
      var front := b[..|b| - 1];
      FlattenConcat(a, front);
      assert (a + b)[..|a + b| - 1] == a + front;
    }
  }

  /** An element of a flattened list is an element of one of its lists. */
  lemma {:induction false} FlattenMembers<T>(lists: seq<seq<T>>, x: T)
    ensures x in Flatten(lists) <==> exists i :: 0 <= i < |lists| && x in lists[i]
  {
    if lists != [] {
      var front := lists[..|lists| - 1];
      FlattenMembers(front, x);
      assert forall i :: 0 <= i < |front| ==> front[i] == lists[i];
    }
  }

  lemma SliceOfSlice<T>(items: seq<T>, from: nat, to: nat, start: nat, stop: nat)
    requires from <= to <= |items| && start <= stop <= to - from
    ensures items[from..to][start..stop] == items[from + start..from + stop]
  {
    var outer := items[from..to];
    forall k | 0 <= k < stop - start ensures outer[start..stop][k] == items[from + start..from + stop][k] {
      assert outer[start..stop][k] == outer[start + k] == items[from + (start + k)];
    }
  }

  lemma PrefixStep<T>(items: seq<T>, i: nat)
    requires i < |items|
    ensures items[..i + 1] == items[..i] + [items[i]]
    ensures items[..i + 1][..i] == items[..i]
  {
  }
}
