/** JavaScript's code-unit order on strings and the sorts that use it. */
module Text {

  /** A JavaScript string, as its UTF-16 code units. */
  type Units = seq<Unit>

  type Unit = u: int | 0 <= u < 0x1_0000

  /** What `trim` removes. */
  predicate WhiteSpace(u: Unit) {
    || 0x9 <= u <= 0xd || u == 0x20 || u == 0xa0 || u == 0x1680 || 0x2000 <= u <= 0x200a
    || u == 0x2028 || u == 0x2029 || u == 0x202f || u == 0x205f || u == 0x3000 || u == 0xfeff
  }

  /** Whether `text.trim()` is empty. */
  predicate Blank(text: Units) { forall i :: 0 <= i < |text| ==> WhiteSpace(text[i]) }

  /** `a <= b` on strings: lexicographic by code unit. */
  predicate AtMost(a: Units, b: Units) {
    if a == [] then true
    else if b == [] then false
    else if a[0] != b[0] then a[0] < b[0]
    else AtMost(a[1..], b[1..])
  }

  predicate Less(a: Units, b: Units) { a != b && AtMost(a, b) }

  lemma {:induction false} AtMostTotal(a: Units, b: Units)
    ensures AtMost(a, b) || AtMost(b, a)
  {
    if a != [] && b != [] && a[0] == b[0] {
      AtMostTotal(a[1..], b[1..]);
    }
  }

  lemma {:induction false} AtMostAntisymmetric(a: Units, b: Units)
    requires AtMost(a, b) && AtMost(b, a)
    ensures a == b
  {
    if a != [] && b != [] {
      AtMostAntisymmetric(a[1..], b[1..]);
      assert a == [a[0]] + a[1..] && b == [b[0]] + b[1..];
    }
  }

  lemma {:induction false} AtMostTransitive(a: Units, b: Units, c: Units)
    requires AtMost(a, b) && AtMost(b, c)
    ensures AtMost(a, c)
  {
    if a != [] && a[0] == b[0] == c[0] {
      AtMostTransitive(a[1..], b[1..], c[1..]);
    }
  }

  ghost predicate Sorted(items: seq<Units>) {
    forall i, j :: 0 <= i < j < |items| ==> AtMost(items[i], items[j])
  }

  function Insert(x: Units, items: seq<Units>): seq<Units> {
    if items == [] || AtMost(x, items[0]) then [x] + items
    else [items[0]] + Insert(x, items[1..])
  }

  /** `items.sort()`. */
  function Sort(items: seq<Units>): seq<Units> {
    if items == [] then [] else Insert(items[0], Sort(items[1..]))
  }

  lemma {:induction false} InsertKeeps(x: Units, items: seq<Units>)
    ensures multiset(Insert(x, items)) == multiset{x} + multiset(items)
  {
    hide AtMost;
    if !(items == [] || AtMost(x, items[0])) {
      InsertKeeps(x, items[1..]);
      assert items == [items[0]] + items[1..];
    }
  }

  lemma {:induction false} InsertSorts(x: Units, items: seq<Units>)
    requires Sorted(items)
    ensures Sorted(Insert(x, items))
  {
    hide AtMost;
    if items == [] {
    } else if AtMost(x, items[0]) {
      forall j | 0 <= j < |items| ensures AtMost(x, items[j]) {
        if j > 0 { AtMostTransitive(x, items[0], items[j]); }
      }
    } else {
      var rest := Insert(x, items[1..]);
      InsertSorts(x, items[1..]);
      InsertKeeps(x, items[1..]);
      AtMostTotal(x, items[0]);
      forall j | 0 <= j < |rest| ensures AtMost(items[0], rest[j]) {
        assert rest[j] in multiset(rest);
        assert rest[j] == x || rest[j] in items[1..];
      }
    }
  }

  lemma {:induction false} SortSorts(items: seq<Units>)
    ensures Sorted(Sort(items)) && multiset(Sort(items)) == multiset(items)
  {
    if items != [] {
      SortSorts(items[1..]);
      InsertSorts(items[0], Sort(items[1..]));
      InsertKeeps(items[0], Sort(items[1..]));
      assert items == [items[0]] + items[1..];
    }
  }
}
