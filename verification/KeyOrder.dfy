/** The object `JSON.parse` builds: a key assigned again keeps its place, and keys that are array indices come first. */
module KeyOrder {
  import opened Options
  import opened Text
  import opened CanonicalJson

  const DIGIT_0: Unit := 0x30
  const DIGIT_9: Unit := 0x39

  /** "4294967294", the largest array index. */
  const LAST_INDEX: Units := [0x34, 0x32, 0x39, 0x34, 0x39, 0x36, 0x37, 0x32, 0x39, 0x34]

  /** The key is an array index: a decimal below 2^32 - 1 without leading zeros. */
  predicate IsIndex(key: Units) {
    && 1 <= |key| <= 10 && (key[0] == DIGIT_0 ==> |key| == 1)
    && (forall i :: 0 <= i < |key| ==> DIGIT_0 <= key[i] <= DIGIT_9)
    && (|key| == 10 ==> AtMost(key, LAST_INDEX))
  }

  /** `a <= b` as numbers, of decimals without leading zeros. */
  predicate IndexAtMost(a: Units, b: Units) { |a| < |b| || (|a| == |b| && AtMost(a, b)) }

  function InsertIndex(e: Entry, entries: seq<Entry>): seq<Entry> {
    if entries == [] || IndexAtMost(e.key, entries[0].key) then [e] + entries
    else [entries[0]] + InsertIndex(e, entries[1..])
  }

  /** The array indices among the entries, in numeric order. */
  function Indices(entries: seq<Entry>): seq<Entry> {
    if entries == [] then []
    else if IsIndex(entries[0].key) then InsertIndex(entries[0], Indices(entries[1..]))
    else Indices(entries[1..])
  }

  /** The other entries, in order. */
  function Names(entries: seq<Entry>): seq<Entry> {
    if entries == [] then []
    else if IsIndex(entries[0].key) then Names(entries[1..])
    else [entries[0]] + Names(entries[1..])
  }

  /** `object[key] = value`. */
  function Assign(entries: seq<Entry>, e: Entry): seq<Entry> {
    if entries == [] then [e]
    else if entries[0].key == e.key then [e] + entries[1..]
    else [entries[0]] + Assign(entries[1..], e)
  }

  function AssignAll(entries: seq<Entry>): seq<Entry> {
    if entries == [] then [] else Assign(AssignAll(entries[..|entries| - 1]), entries[|entries| - 1])
  }

  /** The entries of an object assigned in text order, in the order it lists them. */
  function Listed(entries: seq<Entry>): seq<Entry> { Indices(AssignAll(entries)) + Names(AssignAll(entries)) }

  /** The value `JSON.parse` builds from the parsed text. */
  function Built(v: Json): Json
    decreases v
  {
    match v
    case Arr(items) => Arr(BuiltItems(items, |items|))
    case Obj(entries) => Obj(Listed(BuiltEntries(entries, |entries|)))
    case _ => v
  }

  function BuiltItems(items: seq<Json>, n: nat): (built: seq<Json>)
    requires n <= |items|
    ensures |built| == n && forall i :: 0 <= i < n ==> built[i] == Built(items[i])
    decreases items, n
  {
    if n == 0 then [] else BuiltItems(items, n - 1) + [Built(items[n - 1])]
  }

  function BuiltEntries(entries: seq<Entry>, n: nat): (built: seq<Entry>)
    requires n <= |entries|
    ensures |built| == n && forall i :: 0 <= i < n ==> built[i] == Entry(entries[i].key, Built(entries[i].value))
    decreases entries, n
  {
    if n == 0 then [] else BuiltEntries(entries, n - 1) + [Entry(entries[n - 1].key, Built(entries[n - 1].value))]
  }

  // ----- Array indices and their order

  /** The decimal digits of a number. */
  function Decimal(n: nat): (digits: Units)
    ensures digits != [] && forall i :: 0 <= i < |digits| ==> DIGIT_0 <= digits[i] <= DIGIT_9
  {
    if n < 10 then [DIGIT_0 + n] else Decimal(n / 10) + [DIGIT_0 + n % 10]
  }

  /** The number that digits stand for: none where a unit is no digit. */
  function NumberOf(digits: Units): Option<nat> {
    if digits == [] then Some(0)
    else
      var front, last := NumberOf(digits[..|digits| - 1]), digits[|digits| - 1];
      if front.None? || !(DIGIT_0 <= last <= DIGIT_9) then None else Some(front.value * 10 + (last - DIGIT_0))
  }

  lemma {:induction false} DecimalIsNumber(n: nat)
    ensures NumberOf(Decimal(n)) == Some(n)
  {
    if n < 10 {
      assert Decimal(n)[..0] == [];
    } else {
      DecimalIsNumber(n / 10);
      assert Decimal(n)[..|Decimal(n)| - 1] == Decimal(n / 10);
    }
  }

  lemma {:induction false} AtMostLast(a: Units, b: Units, c: Unit, d: Unit)
    requires |a| == |b|
    ensures AtMost(a + [c], b + [d]) <==> if a == b then c <= d else AtMost(a, b)
  {
    if a != [] {
      assert (a + [c])[1..] == a[1..] + [c] && (b + [d])[1..] == b[1..] + [d];
      AtMostLast(a[1..], b[1..], c, d);
      assert a == [a[0]] + a[1..] && b == [b[0]] + b[1..];
    }
  }

  lemma DecimalStep(n: nat)
    ensures n < 10 ==> Decimal(n) == [] + [DIGIT_0 + n]
    ensures n >= 10 ==> Decimal(n) == Decimal(n / 10) + [DIGIT_0 + n % 10]
  {
  }

  lemma DecimalsDiffer(a: nat, b: nat)
    ensures Decimal(a) == Decimal(b) <==> a == b
  {
    DecimalIsNumber(a);
    DecimalIsNumber(b);
  }

  /** Decimals are ordered as the numbers are. */
  lemma {:induction false} OrderIsNumeric(a: nat, b: nat)
    ensures IndexAtMost(Decimal(a), Decimal(b)) <==> a <= b
    decreases a + b
  {
    hide AtMost, Decimal;
    DecimalStep(a);
    DecimalStep(b);
    if a < 10 && b < 10 {
      AtMostLast([], [], DIGIT_0 + a, DIGIT_0 + b);
    } else if a >= 10 && b >= 10 {
      OrderIsNumeric(a / 10, b / 10);
      OrderIsNumeric(b / 10, a / 10);
      DecimalsDiffer(a / 10, b / 10);
      if |Decimal(a)| == |Decimal(b)| {
        AtMostLast(Decimal(a / 10), Decimal(b / 10), DIGIT_0 + a % 10, DIGIT_0 + b % 10);
      }
    }
  }

  lemma NumberStep(digits: Units)
    requires digits != [] && DIGIT_0 <= digits[|digits| - 1] <= DIGIT_9
    ensures var front, last := NumberOf(digits[..|digits| - 1]), digits[|digits| - 1] - DIGIT_0;
            && (|digits| == 1 ==> NumberOf(digits) == Some(last as nat))
            && (front.Some? ==> NumberOf(digits) == Some(front.value * 10 + last))
  {
    assert |digits| == 1 ==> digits[..0] == [];
  }

  predicate NoLeadingZero(digits: Units) { digits != [] && (digits[0] == DIGIT_0 ==> |digits| == 1) }

  lemma {:induction false} NumberIsDecimal(digits: Units)
    requires NoLeadingZero(digits) && forall i :: 0 <= i < |digits| ==> DIGIT_0 <= digits[i] <= DIGIT_9
    ensures NumberOf(digits).Some? && digits == Decimal(NumberOf(digits).value)
    ensures digits[0] != DIGIT_0 ==> NumberOf(digits).value > 0
  {
    hide Decimal, NumberOf;
    var n := |digits| - 1;
    NumberStep(digits);
    if n > 0 {
      NumberIsDecimal(digits[..n]);
    }
    DecimalStep(NumberOf(digits).value);
    assert digits == digits[..n] + [digits[n]];
  }

  lemma {:induction false} DecimalHasNoLeadingZero(n: nat)
    ensures NoLeadingZero(Decimal(n)) && (Decimal(n)[0] == DIGIT_0 <==> n == 0)
  {
    if n >= 10 {
      DecimalHasNoLeadingZero(n / 10);
    }
  }

  lemma LastIndexIsDecimal()
    ensures Decimal(0xFFFF_FFFE) == LAST_INDEX
  {
    hide Decimal;
    DecimalStep(4);
    DecimalStep(42);
    DecimalStep(429);
    DecimalStep(4294);
    DecimalStep(42949);
    DecimalStep(429496);
    DecimalStep(4294967);
    DecimalStep(42949672);
    DecimalStep(429496729);
    DecimalStep(4294967294);
  }

  /** The keys listed first are the decimals of the numbers below 2^32 - 1. */
  lemma IndexIff(key: Units)
    ensures IsIndex(key) <==> exists n: nat :: n < 0xFFFF_FFFF && key == Decimal(n)
  {
    hide AtMost, Decimal, NumberOf;
    LastIndexIsDecimal();
    if IsIndex(key) {
      NumberIsDecimal(key);
      var n := NumberOf(key).value;
      OrderIsNumeric(n, 0xFFFF_FFFE);
    }
    if n: nat :| n < 0xFFFF_FFFF && key == Decimal(n) {
      DecimalHasNoLeadingZero(n);
      OrderIsNumeric(n, 0xFFFF_FFFE);
    }
  }

  // ----- Listing permutes

  lemma {:induction false} InsertIndexSame(e: Entry, entries: seq<Entry>)
    ensures forall x :: x in InsertIndex(e, entries) <==> x == e || x in entries
    ensures forall key ::
              KeyCount(InsertIndex(e, entries), key) == KeyCount(entries, key) + if e.key == key then 1 else 0
  {
    hide IndexAtMost;
    if entries == [] || IndexAtMost(e.key, entries[0].key) {
      assert ([e] + entries)[1..] == entries;
    } else {
      InsertIndexSame(e, entries[1..]);
      assert ([entries[0]] + InsertIndex(e, entries[1..]))[1..] == InsertIndex(e, entries[1..]);
      assert forall x :: x in entries <==> x == entries[0] || x in entries[1..];
    }
  }

  lemma {:induction false} KeyCountConcat(a: seq<Entry>, b: seq<Entry>, key: Units)
    ensures KeyCount(a + b, key) == KeyCount(a, key) + KeyCount(b, key)
  {
    if a == [] {
      assert a + b == b;
    } else {
      KeyCountConcat(a[1..], b, key);
      assert (a + b)[1..] == a[1..] + b;
    }
  }

  lemma {:induction false} PartsSame(entries: seq<Entry>)
    ensures forall x :: x in Indices(entries) || x in Names(entries) <==> x in entries
    ensures forall key :: KeyCount(Indices(entries), key) + KeyCount(Names(entries), key) == KeyCount(entries, key)
  {
    hide IsIndex;
    if entries != [] {
      PartsSame(entries[1..]);
      InsertIndexSame(entries[0], Indices(entries[1..]));
      assert ([entries[0]] + Names(entries[1..]))[1..] == Names(entries[1..]);
      assert forall x :: x in entries <==> x == entries[0] || x in entries[1..];
    }
  }

  lemma {:induction false} AssignNew(entries: seq<Entry>, e: Entry)
    requires forall i :: 0 <= i < |entries| ==> entries[i].key != e.key
    ensures Assign(entries, e) == entries + [e]
  {
    if entries != [] {
      AssignNew(entries[1..], e);
      assert entries + [e] == [entries[0]] + (entries[1..] + [e]);
    }
  }

  lemma {:induction false} AssignDistinct(entries: seq<Entry>)
    requires !Repeats(entries)
    ensures AssignAll(entries) == entries
  {
    if entries != [] {
      var n := |entries| - 1;
      assert !Repeats(entries[..n]) by {
        assert forall i :: 0 <= i < n ==> entries[..n][i] == entries[i];
      }
      AssignDistinct(entries[..n]);
      AssignNew(entries[..n], entries[n]);
      assert entries == entries[..n] + [entries[n]];
    }
  }

  /** An object whose keys differ lists the entries of its text, each once. */
  lemma ListedSame(entries: seq<Entry>)
    requires !Repeats(entries)
    ensures forall x :: x in Listed(entries) <==> x in entries
    ensures !Repeats(Listed(entries))
  {
    hide Indices, Names, KeyCount;
    AssignDistinct(entries);
    PartsSame(entries);
    var listed := Listed(entries);
    if Repeats(listed) {
      var i, j :| 0 <= i < j < |listed| && listed[i].key == listed[j].key;
      RepeatedKeyCounts(listed, i, j);
      KeyCountConcat(Indices(entries), Names(entries), listed[i].key);
      CountedTwice(entries, listed[i].key);
    }
  }

  lemma {:induction false} InsertIndexInOrder(e: Entry, entries: seq<Entry>)
    requires IsIndex(e.key) && IndicesInOrder(entries)
    ensures IndicesInOrder(InsertIndex(e, entries))
  {
    hide IndexAtMost, IsIndex;
    if entries != [] {
      IndicesCompare(e.key, entries[0].key);
      if !IndexAtMost(e.key, entries[0].key) {
        InsertIndexInOrder(e, entries[1..]);
        InsertIndexSame(e, entries[1..]);
        var rest := InsertIndex(e, entries[1..]);
        forall j | 0 <= j < |rest| ensures IndexAtMost(entries[0].key, rest[j].key) {
          assert rest[j] in rest;
        }
      } else {
        forall j | 0 <= j < |entries| ensures IndexAtMost(e.key, entries[j].key) {
          if j > 0 {
            IndicesCompare(e.key, entries[j].key);
            IndicesChain(e.key, entries[0].key, entries[j].key);
          }
        }
      }
    }
  }

  predicate IndicesInOrder(entries: seq<Entry>) {
    && (forall i :: 0 <= i < |entries| ==> IsIndex(entries[i].key))
    && forall i, j :: 0 <= i < j < |entries| ==> IndexAtMost(entries[i].key, entries[j].key)
  }

  lemma IndicesCompare(a: Units, b: Units)
    requires IsIndex(a) && IsIndex(b)
    ensures IndexAtMost(a, b) || IndexAtMost(b, a)
  {
    hide IsIndex, Decimal, AtMost, IndexAtMost;
    IndexIff(a);
    IndexIff(b);
    var m: nat :| m < 0xFFFF_FFFF && a == Decimal(m);
    var n: nat :| n < 0xFFFF_FFFF && b == Decimal(n);
    OrderIsNumeric(m, n);
    OrderIsNumeric(n, m);
  }

  lemma IndicesChain(a: Units, b: Units, c: Units)
    requires IsIndex(a) && IsIndex(b) && IsIndex(c) && IndexAtMost(a, b) && IndexAtMost(b, c)
    ensures IndexAtMost(a, c)
  {
    hide IsIndex, Decimal, AtMost, IndexAtMost;
    IndexIff(a);
    IndexIff(b);
    IndexIff(c);
    var l: nat :| l < 0xFFFF_FFFF && a == Decimal(l);
    var m: nat :| m < 0xFFFF_FFFF && b == Decimal(m);
    var n: nat :| n < 0xFFFF_FFFF && c == Decimal(n);
    OrderIsNumeric(l, m);
    OrderIsNumeric(m, n);
    OrderIsNumeric(l, n);
  }

  lemma {:induction false} IndicesAreSorted(entries: seq<Entry>)
    ensures IndicesInOrder(Indices(entries))
    ensures forall i :: 0 <= i < |Names(entries)| ==> !IsIndex(Names(entries)[i].key)
  {
    hide IsIndex, IndexAtMost;
    if entries != [] {
      IndicesAreSorted(entries[1..]);
      if IsIndex(entries[0].key) {
        InsertIndexInOrder(entries[0], Indices(entries[1..]));
      }
    }
  }

  /** `object[key]`, of an object with these entries. */
  function Field(entries: seq<Entry>, key: Units): Option<Json> {
    if entries == [] then None else if entries[0].key == key then Some(entries[0].value) else Field(entries[1..], key)
  }

  /** A key assigned again has its last value, in its first place; no key is there twice. */
  lemma {:induction false} AssignSets(entries: seq<Entry>, e: Entry, key: Units)
    ensures Field(Assign(entries, e), key) == if key == e.key then Some(e.value) else Field(entries, key)
    ensures |Assign(entries, e)| == |entries| + if Field(entries, e.key).Some? then 0 else 1
    ensures forall i :: 0 <= i < |entries| ==> Assign(entries, e)[i].key == entries[i].key
    ensures !Repeats(entries) ==> !Repeats(Assign(entries, e))
  {
    if entries != [] {
      assert !Repeats(entries) ==> !Repeats(entries[1..]);
      AssignSets(entries[1..], e, key);
      var more, rest := Assign(entries, e), Assign(entries[1..], e);
      if !Repeats(entries) && entries[0].key != e.key {
        forall j | 1 <= j < |more| ensures more[0].key != more[j].key {
          if j < |entries| {
            assert rest[j - 1].key == entries[1..][j - 1].key;
          } else {
            AddedLast(entries[1..], e);
          }
        }
      }
    }
  }

  lemma {:induction false} AddedLast(entries: seq<Entry>, e: Entry)
    ensures |Assign(entries, e)| > |entries| ==> Assign(entries, e) == entries + [e]
    ensures |entries| <= |Assign(entries, e)| <= |entries| + 1
  {
    if entries != [] {
      AddedLast(entries[1..], e);
    }
  }

  // ----- The value is the same

  /** Reordering the entries of an object whose keys differ after NFC leaves its normal form as it is. */
  lemma ReorderedNorm(a: seq<Entry>, b: seq<Entry>, nfc: Normaliser)
    requires Norm(Obj(a), nfc).Some? && !Repeats(b) && forall x :: x in a <==> x in b
    ensures Norm(Obj(b), nfc) == Norm(Obj(a), nfc)
  {
    hide NormEntry, NormEntries, SortEntries, Collide, HasMatch, AllIn, Norm;
    NormObject(a, nfc);
    var r := NormEntries(a, |a|, nfc).value;
    EntriesNorm(a, |a|, nfc);
    forall j | 0 <= j < |b| ensures NormEntry(b, j, nfc).Some? && HasMatch(b, j, a, nfc) {
      MatchOf(b, j, a, nfc);
    }
    forall i | 0 <= i < |a| ensures HasMatch(a, i, b, nfc) {
      MatchOf(a, i, b, nfc);
    }
    EntriesNorm(b, |b|, nfc);
    var q := NormEntries(b, |b|, nfc).value;
    CoversIffIn(a, b, nfc);
    CoversIffIn(b, a, nfc);
    CollideIffRepeats(r);
    NormKeys(a, r, nfc);
    NormKeys(b, q, nfc);
    forall i, j | 0 <= i < j < |q| ensures q[i].key != q[j].key {
      KeysStillDiffer(a, b, r, i, j, nfc);
    }
    CollideIffRepeats(q);
    SortedAreEqualIffSame(r, q);
    NormObject(b, nfc);
  }

  lemma NormObject(entries: seq<Entry>, nfc: Normaliser)
    ensures var r := NormEntries(entries, |entries|, nfc);
            && (Norm(Obj(entries), nfc).Some? <==> r.Some? && !Collide(SortEntries(r.value)))
            && (Norm(Obj(entries), nfc).Some? ==> Norm(Obj(entries), nfc) == Some(Obj(SortEntries(r.value))))
  {
  }

  lemma NormKeys(a: seq<Entry>, r: seq<Entry>, nfc: Normaliser)
    requires |r| == |a| && forall k :: 0 <= k < |a| ==> NormEntry(a, k, nfc) == Some(r[k])
    ensures forall k :: 0 <= k < |a| ==> r[k].key == nfc(a[k].key)
  {
    hide Norm;
    forall k | 0 <= k < |a| ensures r[k].key == nfc(a[k].key) {
      assert NormEntry(a, k, nfc) == Some(r[k]);
    }
  }

  lemma MatchOf(a: seq<Entry>, i: nat, b: seq<Entry>, nfc: Normaliser)
    requires i < |a| && a[i] in b
    ensures HasMatch(a, i, b, nfc)
    ensures (forall j :: 0 <= j < |b| ==> NormEntry(b, j, nfc).Some?) ==> NormEntry(a, i, nfc).Some?
  {
    hide Norm;
    var j :| 0 <= j < |b| && b[j] == a[i];
    assert NormEntry(a, i, nfc) == NormEntry(b, j, nfc);
  }

  /** Keys that differ after NFC still do when the entries are listed in another order. */
  lemma KeysStillDiffer(a: seq<Entry>, b: seq<Entry>, r: seq<Entry>, i: nat, j: nat, nfc: Normaliser)
    requires |r| == |a| && (forall k :: 0 <= k < |a| ==> r[k].key == nfc(a[k].key)) && !Repeats(r)
    requires !Repeats(b) && (forall x :: x in b ==> x in a) && i < j < |b|
    ensures nfc(b[i].key) != nfc(b[j].key)
  {
    assert b[i] in a && b[j] in a && b[i].key != b[j].key;
    var p :| 0 <= p < |a| && a[p] == b[i];
    var q :| 0 <= q < |a| && a[q] == b[j];
    assert r[p].key == nfc(a[p].key) && r[q].key == nfc(a[q].key);
    assert if p < q then r[p].key != r[q].key else r[q].key != r[p].key;
  }

  /** The object `JSON.parse` builds has the normal form of the text it was built from. */
  lemma {:induction false} BuiltNorm(v: Json, nfc: Normaliser)
    requires Norm(v, nfc).Some?
    ensures Norm(Built(v), nfc) == Norm(v, nfc)
    decreases v
  {
    hide NormItems, NormEntries, SortEntries, Collide, Listed;
    if v.Arr? {
      var items := BuiltItems(v.items, |v.items|);
      ItemsNorm(v.items, |v.items|, nfc);
      ItemsNorm(items, |items|, nfc);
      forall i | 0 <= i < |items| ensures Norm(items[i], nfc) == Norm(v.items[i], nfc) {
        assert Norm(v.items[i], nfc).Some?;
        BuiltNorm(v.items[i], nfc);
      }
      assert NormItems(items, |items|, nfc).value == NormItems(v.items, |v.items|, nfc).value;
    } else if v.Obj? {
      var entries := BuiltEntries(v.entries, |v.entries|);
      EntriesNorm(v.entries, |v.entries|, nfc);
      EntriesNorm(entries, |entries|, nfc);
      forall i | 0 <= i < |entries| ensures NormEntry(entries, i, nfc) == NormEntry(v.entries, i, nfc) {
        assert NormEntry(v.entries, i, nfc).Some?;
        BuiltNorm(v.entries[i].value, nfc);
      }
      assert NormEntries(entries, |entries|, nfc).value == NormEntries(v.entries, |v.entries|, nfc).value;
      DistinctKeys(entries, nfc);
      ListedSame(entries);
      ReorderedNorm(entries, Listed(entries), nfc);
    }
  }

  lemma DistinctKeys(entries: seq<Entry>, nfc: Normaliser)
    requires Norm(Obj(entries), nfc).Some?
    ensures !Repeats(entries)
  {
    hide NormEntries, SortEntries, Collide, Norm;
    NormObject(entries, nfc);
    var r := NormEntries(entries, |entries|, nfc).value;
    EntriesNorm(entries, |entries|, nfc);
    CollideIffRepeats(r);
    NormKeys(entries, r, nfc);
    forall i, j | 0 <= i < j < |entries| ensures entries[i].key != entries[j].key {
      assert r[i].key != r[j].key;
    }
  }
}
