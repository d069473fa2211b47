/** Canonical JSON text: keys sorted, text in NFC; the identity that artifacts are hashed under. */
module CanonicalJson {
  import opened Options
  import opened Text

  /**
   * A value to print. `Num` holds the text `JSON.stringify` gives a finite number; `Unsupported` stands for what the
   * printer refuses: a number that is not finite, a hole, an accessor, a symbol key, an object that is not plain.
   */
  datatype Json = Null | Bool(flag: bool) | Num(digits: Units) | Str(text: Units) | Arr(items: seq<Json>)
      | Obj(entries: seq<Entry>) | Unsupported

  datatype Entry = Entry(key: Units, value: Json)

  /** `text.normalize("NFC")`. */
  type Normaliser = Units -> Units

  // ----- Normal values

  /** The value the text stands for: none where the printer throws. */
  function Norm(v: Json, nfc: Normaliser): Option<Json>
    decreases v
  {
    match v
    case Str(text) => Some(Str(nfc(text)))
    case Arr(items) =>
      var r := NormItems(items, |items|, nfc);
      if r.None? then None else Some(Arr(r.value))
    case Obj(entries) =>
      var r := NormEntries(entries, |entries|, nfc);
      if r.None? || Collide(SortEntries(r.value)) then None else Some(Obj(SortEntries(r.value)))
    case Unsupported => None
    case _ => Some(v)
  }

  function NormItems(items: seq<Json>, n: nat, nfc: Normaliser): Option<seq<Json>>
    requires n <= |items|
    decreases items, n
  {
    if n == 0 then Some([])
    else
      var front, last := NormItems(items, n - 1, nfc), Norm(items[n - 1], nfc);
      if front.None? || last.None? then None else Some(front.value + [last.value])
  }

  function NormEntries(entries: seq<Entry>, n: nat, nfc: Normaliser): Option<seq<Entry>>
    requires n <= |entries|
    decreases entries, n
  {
    if n == 0 then Some([])
    else
      var front, last := NormEntries(entries, n - 1, nfc), Norm(entries[n - 1].value, nfc);
      if front.None? || last.None? then None else Some(front.value + [Entry(nfc(entries[n - 1].key), last.value)])
  }

  function InsertEntry(e: Entry, entries: seq<Entry>): seq<Entry> {
    if entries == [] || AtMost(e.key, entries[0].key) then [e] + entries
    else [entries[0]] + InsertEntry(e, entries[1..])
  }

  /** `entries.sort` by key. */
  function SortEntries(entries: seq<Entry>): seq<Entry> {
    if entries == [] then [] else InsertEntry(entries[0], SortEntries(entries[1..]))
  }

  /** Two neighbours with one key. */
  predicate Collide(entries: seq<Entry>) {
    exists i :: 1 <= i < |entries| && entries[i - 1].key == entries[i].key
  }

  ghost predicate InOrder(entries: seq<Entry>) {
    forall i, j :: 0 <= i < j < |entries| ==> AtMost(entries[i].key, entries[j].key)
  }

  ghost predicate StrictlyInOrder(entries: seq<Entry>) {
    forall i, j :: 0 <= i < j < |entries| ==> Less(entries[i].key, entries[j].key)
  }

  // ----- Sorting

  function KeyCount(entries: seq<Entry>, key: Units): nat {
    if entries == [] then 0 else KeyCount(entries[1..], key) + if entries[0].key == key then 1 else 0
  }

  lemma {:induction false} InsertSame(e: Entry, entries: seq<Entry>, x: Entry)
    ensures x in InsertEntry(e, entries) <==> x == e || x in entries
    ensures forall key ::
              KeyCount(InsertEntry(e, entries), key) == KeyCount(entries, key) + if e.key == key then 1 else 0
  {
    hide AtMost;
    if entries == [] || AtMost(e.key, entries[0].key) {
      assert ([e] + entries)[1..] == entries;
    } else {
      InsertSame(e, entries[1..], x);
      assert ([entries[0]] + InsertEntry(e, entries[1..]))[1..] == InsertEntry(e, entries[1..]);
    }
  }

  lemma {:induction false} InsertInOrder(e: Entry, entries: seq<Entry>)
    requires InOrder(entries)
    ensures InOrder(InsertEntry(e, entries))
  {
    hide AtMost;
    if entries == [] {
    } else if AtMost(e.key, entries[0].key) {
      forall j | 0 <= j < |entries| ensures AtMost(e.key, entries[j].key) {
        if j > 0 { AtMostTransitive(e.key, entries[0].key, entries[j].key); }
      }
    } else {
      var rest := InsertEntry(e, entries[1..]);
      InsertInOrder(e, entries[1..]);
      AtMostTotal(e.key, entries[0].key);
      forall j | 0 <= j < |rest| ensures AtMost(entries[0].key, rest[j].key) {
        InsertSame(e, entries[1..], rest[j]);
        if rest[j] in entries[1..] {
          var k :| 0 <= k < |entries[1..]| && entries[1..][k] == rest[j];
          assert entries[k + 1] == rest[j];
        }
      }
    }
  }

  lemma {:induction false} SortingEntries(entries: seq<Entry>)
    ensures InOrder(SortEntries(entries))
    ensures forall x :: x in SortEntries(entries) <==> x in entries
    ensures forall key :: KeyCount(SortEntries(entries), key) == KeyCount(entries, key)
  {
    hide AtMost, InsertEntry;
    if entries != [] {
      SortingEntries(entries[1..]);
      InsertInOrder(entries[0], SortEntries(entries[1..]));
      forall x ensures x in SortEntries(entries) <==> x in entries {
        InsertSame(entries[0], SortEntries(entries[1..]), x);
        assert x in entries <==> x == entries[0] || x in entries[1..];
      }
      InsertSame(entries[0], SortEntries(entries[1..]), entries[0]);
    }
  }

  lemma NoCollisionIsStrict(entries: seq<Entry>)
    requires InOrder(entries) && !Collide(entries)
    ensures StrictlyInOrder(entries)
  {
    hide AtMost;
    forall i, j | 0 <= i < j < |entries| ensures Less(entries[i].key, entries[j].key) {
      assert entries[i + 1 - 1].key != entries[i + 1].key;
      if entries[i].key == entries[j].key && i + 1 < j {
        AtMostAntisymmetric(entries[i].key, entries[i + 1].key);
      }
    }
  }

  /** A set of entries has one strictly sorted arrangement. */
  lemma {:induction false} StrictOrderIsUnique(a: seq<Entry>, b: seq<Entry>)
    requires StrictlyInOrder(a) && StrictlyInOrder(b)
    requires forall x :: x in a <==> x in b
    ensures a == b
  {
    hide AtMost;
    assert a != [] ==> a[0] in b;
    assert b != [] ==> b[0] in a;
    if a != [] && b != [] {
      HeadIsLeast(a, b[0]);
      HeadIsLeast(b, a[0]);
      if a[0] != b[0] { AtMostAntisymmetric(a[0].key, b[0].key); }
      TailWithoutHead(a);
      TailWithoutHead(b);
      StrictOrderIsUnique(a[1..], b[1..]);
      assert a == [a[0]] + a[1..] && b == [b[0]] + b[1..];
    }
  }

  lemma HeadIsLeast(a: seq<Entry>, x: Entry)
    requires StrictlyInOrder(a) && x in a
    ensures x == a[0] || Less(a[0].key, x.key)
  {
  }

  lemma TailWithoutHead(a: seq<Entry>)
    requires StrictlyInOrder(a) && a != []
    ensures forall x :: x in a[1..] <==> x in a && x != a[0]
  {
    forall x ensures x in a[1..] <==> x in a && x != a[0] {
      if x in a && x != a[0] {
        var i :| 0 <= i < |a| && a[i] == x;
        assert a[1..][i - 1] == x;
      }
      if x in a[1..] {
        var i :| 0 <= i < |a[1..]| && a[1..][i] == x;
        assert a[i + 1] == x && Less(a[0].key, a[i + 1].key);
      }
    }
  }

  // ----- What printing alike means

  /** Equal up to the order of keys, NFC and the text of numbers. */
  ghost predicate Equal(a: Json, b: Json, nfc: Normaliser)
    decreases a
  {
    match a
    case Str(text) => b.Str? && nfc(text) == nfc(b.text)
    case Arr(items) =>
      b.Arr? && |items| == |b.items| && forall i :: 0 <= i < |items| ==> Equal(items[i], b.items[i], nfc)
    case Obj(entries) =>
      && b.Obj?
      && (forall i :: 0 <= i < |entries| ==> HasEqual(entries, i, b.entries, nfc))
      && (forall j :: 0 <= j < |b.entries| ==> IsEqualed(entries, b.entries, j, nfc))
    case _ => a == b
  }

  /** Some entry of `b` is equal to entry `i` of `a`. */
  ghost predicate HasEqual(a: seq<Entry>, i: nat, b: seq<Entry>, nfc: Normaliser)
    requires i < |a|
    decreases a, 1
  {
    exists j :: 0 <= j < |b| && SameEntry(a, i, b, j, nfc)
  }

  /** Some entry of `a` is equal to entry `j` of `b`. */
  ghost predicate IsEqualed(a: seq<Entry>, b: seq<Entry>, j: nat, nfc: Normaliser)
    requires j < |b|
    decreases a, 1
  {
    exists i :: 0 <= i < |a| && SameEntry(a, i, b, j, nfc)
  }

  ghost predicate SameEntry(a: seq<Entry>, i: nat, b: seq<Entry>, j: nat, nfc: Normaliser)
    requires i < |a| && j < |b|
    decreases a, 0
  {
    nfc(a[i].key) == nfc(b[j].key) && Equal(a[i].value, b[j].value, nfc)
  }

  lemma {:induction false} ItemsNorm(items: seq<Json>, n: nat, nfc: Normaliser)
    requires n <= |items|
    ensures var r := NormItems(items, n, nfc);
            && (r.Some? <==> forall i :: 0 <= i < n ==> Norm(items[i], nfc).Some?)
            && (r.Some? ==> |r.value| == n && forall i :: 0 <= i < n ==> Norm(items[i], nfc) == Some(r.value[i]))
  {
    hide Norm;
    if n > 0 { ItemsNorm(items, n - 1, nfc); }
  }

  /** The normalised form of the entry at `i`. */
  function NormEntry(entries: seq<Entry>, i: nat, nfc: Normaliser): Option<Entry>
    requires i < |entries|
  {
    var value := Norm(entries[i].value, nfc);
    if value.None? then None else Some(Entry(nfc(entries[i].key), value.value))
  }

  lemma {:induction false} EntriesNorm(entries: seq<Entry>, n: nat, nfc: Normaliser)
    requires n <= |entries|
    ensures var r := NormEntries(entries, n, nfc);
            && (r.Some? <==> forall i :: 0 <= i < n ==> NormEntry(entries, i, nfc).Some?)
            && (r.Some? ==> |r.value| == n && forall i :: 0 <= i < n ==> NormEntry(entries, i, nfc) == Some(r.value[i]))
  {
    hide Norm;
    if n > 0 {
      EntriesNorm(entries, n - 1, nfc);
      assert NormEntry(entries, n - 1, nfc).Some? <==> Norm(entries[n - 1].value, nfc).Some?;
    }
  }

  /** Two values that can be printed have one normal form exactly when they are equal. */
  lemma {:induction false} NormIffEqual(a: Json, b: Json, nfc: Normaliser)
    requires Norm(a, nfc).Some? && Norm(b, nfc).Some?
    ensures Norm(a, nfc) == Norm(b, nfc) <==> Equal(a, b, nfc)
    decreases a
  {
    hide Collide, SortEntries, NormEntries, NormItems;
    if a.Arr? && b.Arr? {
      ItemsNorm(a.items, |a.items|, nfc);
      ItemsNorm(b.items, |b.items|, nfc);
      forall i | 0 <= i < |a.items| && i < |b.items|
        ensures Norm(a.items[i], nfc) == Norm(b.items[i], nfc) <==> Equal(a.items[i], b.items[i], nfc)
      {
        NormIffEqual(a.items[i], b.items[i], nfc);
      }
      ArraysIffEqual(a.items, b.items, nfc);
    } else if a.Obj? && b.Obj? {
      EntriesNorm(a.entries, |a.entries|, nfc);
      EntriesNorm(b.entries, |b.entries|, nfc);
      forall i, j | 0 <= i < |a.entries| && 0 <= j < |b.entries|
        ensures NormEntry(a.entries, i, nfc) == NormEntry(b.entries, j, nfc) <==>
                SameEntry(a.entries, i, b.entries, j, nfc)
      {
        assert NormEntry(a.entries, i, nfc).Some? && NormEntry(b.entries, j, nfc).Some?;
        NormIffEqual(a.entries[i].value, b.entries[j].value, nfc);
      }
      ObjectsIffEqual(a.entries, b.entries, nfc);
    }
  }

  lemma ArraysIffEqual(a: seq<Json>, b: seq<Json>, nfc: Normaliser)
    requires Norm(Arr(a), nfc).Some? && Norm(Arr(b), nfc).Some?
    requires forall i :: 0 <= i < |a| && i < |b| ==> (Norm(a[i], nfc) == Norm(b[i], nfc) <==> Equal(a[i], b[i], nfc))
    ensures Norm(Arr(a), nfc) == Norm(Arr(b), nfc) <==> Equal(Arr(a), Arr(b), nfc)
  {
    ItemsNorm(a, |a|, nfc);
    ItemsNorm(b, |b|, nfc);
    var x, y := NormItems(a, |a|, nfc).value, NormItems(b, |b|, nfc).value;
    if x == y {
      forall i | 0 <= i < |a| ensures Equal(a[i], b[i], nfc) {
        assert Norm(a[i], nfc) == Some(x[i]) == Some(y[i]) == Norm(b[i], nfc);
      }
    }
    if Equal(Arr(a), Arr(b), nfc) {
      forall i | 0 <= i < |x| ensures x[i] == y[i] {
        assert Norm(a[i], nfc) == Norm(b[i], nfc);
      }
    }
  }

  ghost predicate HasMatch(a: seq<Entry>, i: nat, b: seq<Entry>, nfc: Normaliser)
    requires i < |a|
  {
    exists j :: 0 <= j < |b| && NormEntry(a, i, nfc) == NormEntry(b, j, nfc)
  }

  ghost predicate AllIn(x: seq<Entry>, y: seq<Entry>) { forall e :: e in x ==> e in y }

  lemma CoversIffIn(a: seq<Entry>, b: seq<Entry>, nfc: Normaliser)
    requires NormEntries(a, |a|, nfc).Some? && NormEntries(b, |b|, nfc).Some?
    ensures (forall i :: 0 <= i < |a| ==> HasMatch(a, i, b, nfc)) <==>
            AllIn(NormEntries(a, |a|, nfc).value, NormEntries(b, |b|, nfc).value)
  {
    hide NormEntry, NormEntries;
    EntriesNorm(a, |a|, nfc);
    EntriesNorm(b, |b|, nfc);
    var x, y := NormEntries(a, |a|, nfc).value, NormEntries(b, |b|, nfc).value;
    if forall i :: 0 <= i < |a| ==> HasMatch(a, i, b, nfc) {
      forall e | e in x ensures e in y {
        var i :| 0 <= i < |x| && x[i] == e;
        assert HasMatch(a, i, b, nfc);
        var j :| 0 <= j < |b| && NormEntry(a, i, nfc) == NormEntry(b, j, nfc);
        assert y[j] == e;
      }
    }
    if AllIn(x, y) {
      forall i | 0 <= i < |a| ensures HasMatch(a, i, b, nfc) {
        assert x[i] in y;
        var j :| 0 <= j < |y| && y[j] == x[i];
        assert NormEntry(b, j, nfc) == Some(y[j]);
      }
    }
  }

  /** Equality of objects, in terms of the normalised entries. */
  lemma ObjectsMatch(a: seq<Entry>, b: seq<Entry>, nfc: Normaliser)
    requires forall i, j :: 0 <= i < |a| && 0 <= j < |b| ==>
             (NormEntry(a, i, nfc) == NormEntry(b, j, nfc) <==> SameEntry(a, i, b, j, nfc))
    ensures Equal(Obj(a), Obj(b), nfc) <==>
            (forall i :: 0 <= i < |a| ==> HasMatch(a, i, b, nfc))
                && (forall j :: 0 <= j < |b| ==> HasMatch(b, j, a, nfc))
  {
    hide NormEntry, SameEntry;
    forall i | 0 <= i < |a| ensures HasMatch(a, i, b, nfc) <==> HasEqual(a, i, b, nfc) {
      if HasMatch(a, i, b, nfc) {
        var j :| 0 <= j < |b| && NormEntry(a, i, nfc) == NormEntry(b, j, nfc);
        assert SameEntry(a, i, b, j, nfc);
      }
      if j :| 0 <= j < |b| && SameEntry(a, i, b, j, nfc) {
        assert NormEntry(a, i, nfc) == NormEntry(b, j, nfc);
      }
    }
    forall j | 0 <= j < |b| ensures HasMatch(b, j, a, nfc) <==> IsEqualed(a, b, j, nfc) {
      if HasMatch(b, j, a, nfc) {
        var i :| 0 <= i < |a| && NormEntry(b, j, nfc) == NormEntry(a, i, nfc);
        assert SameEntry(a, i, b, j, nfc);
      }
      if i :| 0 <= i < |a| && SameEntry(a, i, b, j, nfc) {
        assert NormEntry(b, j, nfc) == NormEntry(a, i, nfc);
      }
    }
  }

  lemma ObjectsIffEqual(a: seq<Entry>, b: seq<Entry>, nfc: Normaliser)
    requires Norm(Obj(a), nfc).Some? && Norm(Obj(b), nfc).Some?
    requires forall i, j :: 0 <= i < |a| && 0 <= j < |b| ==>
             (NormEntry(a, i, nfc) == NormEntry(b, j, nfc) <==> SameEntry(a, i, b, j, nfc))
    ensures Norm(Obj(a), nfc) == Norm(Obj(b), nfc) <==> Equal(Obj(a), Obj(b), nfc)
  {
    hide NormEntry, NormEntries, SameEntry, SortEntries, HasMatch, Equal;
    var x, y := NormEntries(a, |a|, nfc).value, NormEntries(b, |b|, nfc).value;
    SortedAreEqualIffSame(x, y);
    CoversIffIn(a, b, nfc);
    CoversIffIn(b, a, nfc);
    ObjectsMatch(a, b, nfc);
  }

  lemma SortedAreEqualIffSame(x: seq<Entry>, y: seq<Entry>)
    requires !Collide(SortEntries(x)) && !Collide(SortEntries(y))
    ensures SortEntries(x) == SortEntries(y) <==> AllIn(x, y) && AllIn(y, x)
  {
    hide SortEntries, Collide;
    SortingEntries(x);
    SortingEntries(y);
    NoCollisionIsStrict(SortEntries(x));
    NoCollisionIsStrict(SortEntries(y));
    if AllIn(x, y) && AllIn(y, x) {
      StrictOrderIsUnique(SortEntries(x), SortEntries(y));
    }
  }

  // ----- Colliding keys

  ghost predicate Repeats(entries: seq<Entry>) {
    exists i, j :: 0 <= i < j < |entries| && entries[i].key == entries[j].key
  }

  lemma {:induction false} CountsItsKey(entries: seq<Entry>, i: nat)
    requires i < |entries|
    ensures KeyCount(entries, entries[i].key) >= 1
  {
    if i > 0 { CountsItsKey(entries[1..], i - 1); }
  }

  lemma {:induction false} RepeatedKeyCounts(entries: seq<Entry>, i: nat, j: nat)
    requires i < j < |entries| && entries[i].key == entries[j].key
    ensures KeyCount(entries, entries[i].key) >= 2
  {
    if i > 0 { RepeatedKeyCounts(entries[1..], i - 1, j - 1); } else { CountsItsKey(entries[1..], j - 1); }
  }

  lemma {:induction false} CountedKey(entries: seq<Entry>, key: Units) returns (i: nat)
    requires KeyCount(entries, key) >= 1
    ensures i < |entries| && entries[i].key == key
  {
    if entries[0].key == key {
      i := 0;
    } else {
      i := CountedKey(entries[1..], key);
      i := i + 1;
    }
  }

  lemma {:induction false} CountedTwice(entries: seq<Entry>, key: Units)
    requires KeyCount(entries, key) >= 2
    ensures Repeats(entries)
  {
    if entries[0].key == key {
      var j := CountedKey(entries[1..], key);
      assert entries[0].key == entries[j + 1].key;
    } else {
      CountedTwice(entries[1..], key);
      var i, j :| 0 <= i < j < |entries[1..]| && entries[1..][i].key == entries[1..][j].key;
      assert entries[i + 1].key == entries[j + 1].key;
    }
  }

  /** Sorting brings a repeated key together, so comparing neighbours finds it. */
  lemma CollideIffRepeats(entries: seq<Entry>)
    ensures Collide(SortEntries(entries)) <==> Repeats(entries)
  {
    hide SortEntries, AtMost;
    var sorted := SortEntries(entries);
    SortingEntries(entries);
    if Collide(sorted) {
      var i :| 1 <= i < |sorted| && sorted[i - 1].key == sorted[i].key;
      RepeatedKeyCounts(sorted, i - 1, i);
      CountedTwice(entries, sorted[i].key);
    } else {
      NoCollisionIsStrict(sorted);
      if Repeats(entries) {
        var i, j :| 0 <= i < j < |entries| && entries[i].key == entries[j].key;
        RepeatedKeyCounts(entries, i, j);
        CountedTwice(sorted, entries[i].key);
      }
    }
  }

  /** An object whose values can be printed is refused exactly when two of its keys are one after NFC. */
  lemma ObjectThrowsIffKeysCollide(entries: seq<Entry>, nfc: Normaliser)
    requires forall i :: 0 <= i < |entries| ==> Norm(entries[i].value, nfc).Some?
    ensures Norm(Obj(entries), nfc).None? <==>
            exists i, j :: 0 <= i < j < |entries| && nfc(entries[i].key) == nfc(entries[j].key)
  {
    hide Collide, SortEntries, NormEntries;
    EntriesNorm(entries, |entries|, nfc);
    assert forall i :: 0 <= i < |entries| ==> NormEntry(entries, i, nfc).Some?;
    var r := NormEntries(entries, |entries|, nfc).value;
    CollideIffRepeats(r);
    forall i | 0 <= i < |entries| ensures r[i].key == nfc(entries[i].key) {
      assert NormEntry(entries, i, nfc) == Some(r[i]);
    }
    if i, j :| 0 <= i < j < |entries| && nfc(entries[i].key) == nfc(entries[j].key) {
      assert r[i].key == r[j].key;
    }
    if Repeats(r) {
      var i, j :| 0 <= i < j < |r| && r[i].key == r[j].key;
      assert nfc(entries[i].key) == nfc(entries[j].key);
    }
  }

  // ----- Normal forms are stable

  ghost predicate Idempotent(nfc: Normaliser) { forall text :: nfc(nfc(text)) == nfc(text) }

  lemma {:induction false} SortOfSorted(entries: seq<Entry>)
    requires InOrder(entries)
    ensures SortEntries(entries) == entries
  {
    hide AtMost;
    if entries != [] {
      SortOfSorted(entries[1..]);
      assert |entries| > 1 ==> AtMost(entries[0].key, entries[1].key);
      assert entries == [entries[0]] + entries[1..];
    }
  }

  /** Normalising a normal value changes nothing. */
  lemma {:induction false} NormIsStable(v: Json, nfc: Normaliser)
    requires Idempotent(nfc) && Norm(v, nfc).Some?
    ensures Norm(Norm(v, nfc).value, nfc) == Norm(v, nfc)
    decreases v
  {
    hide Collide, SortEntries, NormEntries, NormItems;
    if v.Arr? {
      ItemsNorm(v.items, |v.items|, nfc);
      var items := NormItems(v.items, |v.items|, nfc).value;
      forall i | 0 <= i < |items| ensures Norm(items[i], nfc) == Some(items[i]) {
        assert Norm(v.items[i], nfc) == Some(items[i]);
        NormIsStable(v.items[i], nfc);
      }
      ItemsNorm(items, |items|, nfc);
      assert NormItems(items, |items|, nfc).value == items;
    } else if v.Obj? {
      EntriesNorm(v.entries, |v.entries|, nfc);
      var r := NormEntries(v.entries, |v.entries|, nfc).value;
      forall i | 0 <= i < |r| ensures NormEntry(r, i, nfc) == Some(r[i]) {
        assert NormEntry(v.entries, i, nfc) == Some(r[i]);
        NormIsStable(v.entries[i].value, nfc);
      }
      SortedIsStable(r, nfc);
    }
  }

  lemma SortedIsStable(r: seq<Entry>, nfc: Normaliser)
    requires forall i :: 0 <= i < |r| ==> NormEntry(r, i, nfc) == Some(r[i])
    requires !Collide(SortEntries(r))
    ensures Norm(Obj(SortEntries(r)), nfc) == Some(Obj(SortEntries(r)))
  {
    hide Collide, SortEntries, NormEntries;
    var sorted := SortEntries(r);
    SortingEntries(r);
    forall i | 0 <= i < |sorted| ensures NormEntry(sorted, i, nfc) == Some(sorted[i]) {
      assert sorted[i] in r;
      var k :| 0 <= k < |r| && r[k] == sorted[i];
      assert NormEntry(r, k, nfc) == Some(r[k]);
    }
    EntriesNorm(sorted, |sorted|, nfc);
    assert NormEntries(sorted, |sorted|, nfc).value == sorted;
    SortOfSorted(sorted);
  }
}
