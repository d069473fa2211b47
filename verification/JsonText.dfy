/** The text of a normal value, and the parse that gives the value back. */
module JsonText {
  import opened Options
  import opened Text
  import opened CanonicalJson

  const QUOTE: Unit := 0x22
  const BACKSLASH: Unit := 0x5c
  const COMMA: Unit := 0x2c
  const COLON: Unit := 0x3a
  const OPEN_LIST: Unit := 0x5b
  const CLOSE_LIST: Unit := 0x5d
  const OPEN_OBJECT: Unit := 0x7b
  const CLOSE_OBJECT: Unit := 0x7d

  const NULL_TEXT: Units := [0x6e, 0x75, 0x6c, 0x6c]
  const TRUE_TEXT: Units := [0x74, 0x72, 0x75, 0x65]
  const FALSE_TEXT: Units := [0x66, 0x61, 0x6c, 0x73, 0x65]

  predicate High(u: Unit) { 0xD800 <= u <= 0xDBFF }
  predicate Low(u: Unit) { 0xDC00 <= u <= 0xDFFF }

  /** The units a number's text is made of: digits, signs, the point and the exponent. */
  predicate NumberUnit(u: Unit) { 0x30 <= u <= 0x39 || u == 0x2b || u == 0x2d || u == 0x2e || u == 0x45 || u == 0x65 }

  // ----- Strings

  function HexDigit(d: nat): Unit
    requires d < 16
  {
    if d < 10 then 0x30 + d else 0x61 + d - 10
  }

  function HexValue(u: Unit): Option<nat> {
    if 0x30 <= u <= 0x39 then Some(u - 0x30)
    else if 0x61 <= u <= 0x66 then Some(u - 0x61 + 10)
    else if 0x41 <= u <= 0x46 then Some(u - 0x41 + 10)
    else None
  }

  function Hex(u: Unit): Units {
    [BACKSLASH, 0x75, HexDigit(u / 0x1000), HexDigit(u / 0x100 % 0x10), HexDigit(u / 0x10 % 0x10), HexDigit(u % 0x10)]
  }

  /** The letter of a short escape: `\b`, `\t`, `\n`, `\f`, `\r`, `\"` and `\\`. */
  function Short(u: Unit): Option<Unit> {
    if u == 0x08 then Some(0x62)
    else if u == 0x09 then Some(0x74)
    else if u == 0x0a then Some(0x6e)
    else if u == 0x0c then Some(0x66)
    else if u == 0x0d then Some(0x72)
    else if u == QUOTE || u == BACKSLASH then Some(u)
    else None
  }

  /** One code unit that is not half of a surrogate pair. */
  function EscapeUnit(u: Unit): Units {
    if Short(u).Some? then [BACKSLASH, Short(u).value]
    else if u < 0x20 || High(u) || Low(u) then Hex(u)
    else [u]
  }

  predicate PairAt(s: Units, i: nat) { i + 1 < |s| && High(s[i]) && Low(s[i + 1]) }

  function EscapeFrom(s: Units, i: nat): Units
    requires i <= |s|
    decreases |s| - i
  {
    if i == |s| then []
    else if PairAt(s, i) then [s[i], s[i + 1]] + EscapeFrom(s, i + 2)
    else EscapeUnit(s[i]) + EscapeFrom(s, i + 1)
  }

  /** `JSON.stringify` of a string. */
  function Quoted(s: Units): Units { [QUOTE] + EscapeFrom(s, 0) + [QUOTE] }

  datatype Parsed<T> = Parsed(value: T, rest: Units)

  function LetterValue(u: Unit): Option<Unit> {
    if u == 0x62 then Some(0x08)
    else if u == 0x74 then Some(0x09)
    else if u == 0x6e then Some(0x0a)
    else if u == 0x66 then Some(0x0c)
    else if u == 0x72 then Some(0x0d)
    else if u == QUOTE || u == BACKSLASH || u == 0x2f then Some(u)
    else None
  }

  /** One code unit of a string's text: literal or escaped. */
  function ReadUnit(text: Units): (r: Option<Parsed<Unit>>)
    ensures r.Some? ==> |r.value.rest| < |text|
  {
    if text == [] || text[0] < 0x20 || text[0] == QUOTE then None
    else if text[0] != BACKSLASH then Some(Parsed(text[0], text[1..]))
    else if |text| < 2 then None
    else if text[1] != 0x75 then
      if LetterValue(text[1]).Some? then Some(Parsed(LetterValue(text[1]).value, text[2..])) else None
    else if |text| < 6 then None
    else
      var a, b, c, d := HexValue(text[2]), HexValue(text[3]), HexValue(text[4]), HexValue(text[5]);
      if a.None? || b.None? || c.None? || d.None? then None
      else
        var u := ((a.value * 0x10 + b.value) * 0x10 + c.value) * 0x10 + d.value;
        if u < 0x1_0000 then Some(Parsed(u, text[6..])) else None
  }

  predicate CleanUnit(u: Unit) { u >= 0x20 && !High(u) && !Low(u) }

  /** No text without control characters and lone surrogates that reads as a unit is shorter than its escape. */
  lemma EscapeIsShortest(u: Unit, text: Units)
    requires ReadUnit(text) == Some(Parsed(u, []))
    requires forall i :: 0 <= i < |text| ==> CleanUnit(text[i])
    ensures |EscapeUnit(u)| <= |text|
    ensures |text| == 1 ==> EscapeUnit(u) == text
  {
    if text[0] != BACKSLASH {
      assert text[1..] == [] && text == [text[0]];
    } else if text[1] != 0x75 {
      assert |text| == 2;
    }
  }

  /** Surrogates are the units whose upper six bits are 110110 and 110111. */
  lemma SurrogatesAre(u: Unit)
    ensures High(u) <==> u / 0x400 == 0x36
    ensures Low(u) <==> u / 0x400 == 0x37
  {
  }

  /** A hexadecimal digit is read in either case, and an escaped solidus as itself. */
  lemma ReaderAcceptsMore(d: nat)
    requires d < 16
    ensures HexValue(HexDigit(d)) == Some(d) && (d >= 10 ==> HexValue(HexDigit(d) - 0x20) == Some(d))
    ensures ReadUnit([BACKSLASH, 0x2f]) == Some(Parsed(0x2f, []))
  {
  }

  /** The rest of a string after its opening quote. */
  function ReadString(text: Units): (r: Option<Parsed<Units>>)
    ensures r.Some? ==> |r.value.rest| < |text|
    decreases |text|
  {
    if text == [] then None
    else if text[0] == QUOTE then Some(Parsed([], text[1..]))
    else
      var unit := ReadUnit(text);
      if unit.None? then None
      else
        var more := ReadString(unit.value.rest);
        if more.None? then None else Some(Parsed([unit.value.value] + more.value.value, more.value.rest))
  }

  lemma Dropped<T>(a: seq<T>, b: seq<T>)
    ensures (a + b)[|a|..] == b
  {
  }

  lemma HexRoundTrip(u: Unit, more: Units)
    ensures ReadUnit(Hex(u) + more) == Some(Parsed(u, more))
  {
    var text := Hex(u) + more;
    Dropped(Hex(u), more);
    assert HexValue(text[2]) == Some(u / 0x1000) && HexValue(text[3]) == Some(u / 0x100 % 0x10);
    assert HexValue(text[4]) == Some(u / 0x10 % 0x10) && HexValue(text[5]) == Some(u % 0x10);
    HexDigits(u);
  }

  lemma HexDigits(u: Unit)
    ensures ((u / 0x1000 * 0x10 + u / 0x100 % 0x10) * 0x10 + u / 0x10 % 0x10) * 0x10 + u % 0x10 == u
  {
    assert u / 0x100 / 0x10 == u / 0x1000 && u / 0x10 / 0x10 == u / 0x100;
  }

  lemma UnitRoundTrip(u: Unit, more: Units)
    ensures ReadUnit(EscapeUnit(u) + more) == Some(Parsed(u, more))
    ensures (EscapeUnit(u) + more)[0] != QUOTE
  {
    hide HexDigit, HexValue;
    Dropped(EscapeUnit(u), more);
    HexRoundTrip(u, more);
  }

  /** What reading a string gives once its first unit is read. */
  function WithUnit(u: Unit, more: Option<Parsed<Units>>): Option<Parsed<Units>> {
    if more.None? then None else Some(Parsed([u] + more.value.value, more.value.rest))
  }

  lemma LiteralRoundTrip(u: Unit, more: Units)
    requires u >= 0x20 && u != QUOTE && u != BACKSLASH
    ensures ReadString([u] + more) == WithUnit(u, ReadString(more))
  {
    assert ([u] + more)[1..] == more;
    assert ReadUnit([u] + more) == Some(Parsed(u, more));
  }

  lemma EscapedRoundTrip(u: Unit, more: Units)
    ensures ReadString(EscapeUnit(u) + more) == WithUnit(u, ReadString(more))
  {
    hide ReadUnit, EscapeUnit;
    UnitRoundTrip(u, more);
  }

  lemma Regrouped(a: Units, b: Units, c: Units, d: Units)
    ensures (a + b) + c + d == a + (b + c + d)
  {
  }

  /** Reading an escaped string gives it back, and stops right after its closing quote. */
  lemma {:induction false} StringRoundTrip(s: Units, i: nat, rest: Units)
    requires i <= |s|
    ensures ReadString(EscapeFrom(s, i) + [QUOTE] + rest) == Some(Parsed(s[i..], rest))
    decreases |s| - i
  {
    hide ReadString, EscapeUnit;
    if i == |s| {
      EmptyString(rest);
      assert [] + [QUOTE] + rest == [QUOTE] + rest;
    } else if PairAt(s, i) {
      StringRoundTrip(s, i + 2, rest);
      var more := EscapeFrom(s, i + 2) + [QUOTE] + rest;
      LiteralRoundTrip(s[i + 1], more);
      LiteralRoundTrip(s[i], [s[i + 1]] + more);
      Regrouped([s[i], s[i + 1]], EscapeFrom(s, i + 2), [QUOTE], rest);
      assert [s[i], s[i + 1]] + more == [s[i]] + ([s[i + 1]] + more);
      assert s[i..] == [s[i]] + ([s[i + 1]] + s[i + 2..]);
    } else {
      StringRoundTrip(s, i + 1, rest);
      EscapedRoundTrip(s[i], EscapeFrom(s, i + 1) + [QUOTE] + rest);
      Regrouped(EscapeUnit(s[i]), EscapeFrom(s, i + 1), [QUOTE], rest);
      assert s[i..] == [s[i]] + s[i + 1..];
    }
  }

  lemma EmptyString(rest: Units)
    ensures ReadString([QUOTE] + rest) == Some(Parsed([], rest))
  {
    Dropped([QUOTE], rest);
  }

  // ----- Values

  /** What the printer can be given once normalised: numbers carry the text of a finite number. */
  predicate Printable(v: Json)
    decreases v
  {
    match v
    case Num(digits) => digits != [] && forall i :: 0 <= i < |digits| ==> NumberUnit(digits[i])
    case Arr(items) => forall i :: 0 <= i < |items| ==> Printable(items[i])
    case Obj(entries) => forall i :: 0 <= i < |entries| ==> Printable(entries[i].value)
    case Unsupported => false
    case _ => true
  }

  function Print(v: Json): Units
    decreases v
  {
    match v
    case Null => NULL_TEXT
    case Bool(flag) => if flag then TRUE_TEXT else FALSE_TEXT
    case Num(digits) => digits
    case Str(text) => Quoted(text)
    case Arr(items) => [OPEN_LIST] + PrintItems(items, 0)
    case Obj(entries) => [OPEN_OBJECT] + PrintEntries(entries, 0)
    case Unsupported => []
  }

  /** The items from `i` on, joined by commas, and the closing bracket. */
  function PrintItems(items: seq<Json>, i: nat): Units
    requires i <= |items|
    decreases items, |items| - i
  {
    if i == |items| then [CLOSE_LIST]
    else (if i > 0 then [COMMA] else []) + Print(items[i]) + PrintItems(items, i + 1)
  }

  function PrintEntries(entries: seq<Entry>, i: nat): Units
    requires i <= |entries|
    decreases entries, |entries| - i
  {
    if i == |entries| then [CLOSE_OBJECT]
    else
      (if i > 0 then [COMMA] else []) + Quoted(entries[i].key) + [COLON] + Print(entries[i].value)
          + PrintEntries(entries, i + 1)
  }

  // ----- Parsing

  /** The leading units of a number. */
  function NumberLength(text: Units): (n: nat)
    ensures n <= |text| && (n < |text| ==> !NumberUnit(text[n]))
    ensures forall i :: 0 <= i < n ==> NumberUnit(text[i])
  {
    if text == [] || !NumberUnit(text[0]) then 0 else 1 + NumberLength(text[1..])
  }

  /** `JSON.parse` of text without insignificant white space. */
  function ParseValue(text: Units): (r: Option<Parsed<Json>>)
    ensures r.Some? ==> |r.value.rest| < |text|
    decreases |text|, 0
  {
    if text == [] then None
    else if NULL_TEXT <= text then Some(Parsed(Null, text[4..]))
    else if TRUE_TEXT <= text then Some(Parsed(Bool(true), text[4..]))
    else if FALSE_TEXT <= text then Some(Parsed(Bool(false), text[5..]))
    else if NumberUnit(text[0]) then Some(Parsed(Num(text[..NumberLength(text)]), text[NumberLength(text)..]))
    else if text[0] == QUOTE then
      var s := ReadString(text[1..]);
      if s.None? then None else Some(Parsed(Str(s.value.value), s.value.rest))
    else if text[0] == OPEN_LIST then
      var items := ParseItems(text[1..], true);
      if items.None? then None else Some(Parsed(Arr(items.value.value), items.value.rest))
    else if text[0] == OPEN_OBJECT then
      var entries := ParseEntries(text[1..], true);
      if entries.None? then None else Some(Parsed(Obj(entries.value.value), entries.value.rest))
    else None
  }

  /** The text of the next item, past its comma; none where the comma is missing or misplaced. */
  function NextItem(text: Units, first: bool): (r: Option<Units>)
    ensures r.Some? ==> |r.value| <= |text|
  {
    if first then Some(text) else if text != [] && text[0] == COMMA then Some(text[1..]) else None
  }

  function ParseItems(text: Units, first: bool): (r: Option<Parsed<seq<Json>>>)
    ensures r.Some? ==> |r.value.rest| < |text|
    decreases |text|, 1
  {
    if text != [] && text[0] == CLOSE_LIST then Some(Parsed([], text[1..]))
    else
      var next := NextItem(text, first);
      if next.None? then None
      else
        var item := ParseValue(next.value);
        if item.None? then None
        else
          var more := ParseItems(item.value.rest, false);
          if more.None? then None else Some(Parsed([item.value.value] + more.value.value, more.value.rest))
  }

  function ParseEntries(text: Units, first: bool): (r: Option<Parsed<seq<Entry>>>)
    ensures r.Some? ==> |r.value.rest| < |text|
    decreases |text|, 1
  {
    if text != [] && text[0] == CLOSE_OBJECT then Some(Parsed([], text[1..]))
    else
      var next := NextItem(text, first);
      if next.None? || next.value == [] || next.value[0] != QUOTE then None
      else
        var key := ReadString(next.value[1..]);
        if key.None? || key.value.rest == [] || key.value.rest[0] != COLON then None
        else
          var value := ParseValue(key.value.rest[1..]);
          if value.None? then None
          else
            var more := ParseEntries(value.value.rest, false);
            if more.None? then None
            else Some(Parsed([Entry(key.value.value, value.value.value)] + more.value.value, more.value.rest))
  }

  /** Text that ends a value: nothing a number could go on with. */
  predicate Ends(rest: Units) { rest == [] || !NumberUnit(rest[0]) }

  lemma {:induction false} NumberStops(digits: Units, rest: Units)
    requires (forall i :: 0 <= i < |digits| ==> NumberUnit(digits[i])) && Ends(rest)
    ensures NumberLength(digits + rest) == |digits|
  {
    if digits == [] {
      assert digits + rest == rest;
    } else {
      assert (digits + rest)[1..] == digits[1..] + rest;
      NumberStops(digits[1..], rest);
    }
  }

  lemma NumberRoundTrip(digits: Units, rest: Units)
    requires Printable(Num(digits)) && Ends(rest)
    ensures ParseValue(digits + rest) == Some(Parsed(Num(digits), rest))
  {
    var text := digits + rest;
    NumberStops(digits, rest);
    assert text[0] == digits[0] && NumberUnit(text[0]);
    assert text[..|digits|] == digits && text[|digits|..] == rest;
  }

  lemma WordRoundTrip(rest: Units)
    ensures ParseValue(NULL_TEXT + rest) == Some(Parsed(Null, rest))
    ensures ParseValue(TRUE_TEXT + rest) == Some(Parsed(Bool(true), rest))
    ensures ParseValue(FALSE_TEXT + rest) == Some(Parsed(Bool(false), rest))
  {
    Dropped(NULL_TEXT, rest);
    Dropped(TRUE_TEXT, rest);
    Dropped(FALSE_TEXT, rest);
    assert (TRUE_TEXT + rest)[0] != NULL_TEXT[0] && (FALSE_TEXT + rest)[0] != NULL_TEXT[0]
        && (FALSE_TEXT + rest)[0] != TRUE_TEXT[0];
  }

  lemma QuotedRoundTrip(s: Units, rest: Units)
    ensures (Quoted(s) + rest)[0] == QUOTE && ReadString((Quoted(s) + rest)[1..]) == Some(Parsed(s, rest))
  {
    StringRoundTrip(s, 0, rest);
    assert (Quoted(s) + rest)[1..] == EscapeFrom(s, 0) + [QUOTE] + rest;
  }

  lemma StringValue(s: Units, rest: Units)
    ensures ParseValue(Quoted(s) + rest) == Some(Parsed(Str(s), rest))
  {
    hide ReadString, EscapeFrom, NumberLength;
    QuotedRoundTrip(s, rest);
    OtherStart(Quoted(s) + rest);
  }

  lemma ListValue(body: Units)
    ensures ParseValue([OPEN_LIST] + body) ==
            var r := ParseItems(body, true);
            if r.None? then None else Some(Parsed(Arr(r.value.value), r.value.rest))
  {
    hide ParseItems;
    Dropped([OPEN_LIST], body);
    OtherStart([OPEN_LIST] + body);
  }

  lemma ObjectValue(body: Units)
    ensures ParseValue([OPEN_OBJECT] + body) ==
            var r := ParseEntries(body, true);
            if r.None? then None else Some(Parsed(Obj(r.value.value), r.value.rest))
  {
    hide ParseEntries;
    Dropped([OPEN_OBJECT], body);
    OtherStart([OPEN_OBJECT] + body);
  }

  /** A value that starts with a quote or an opening bracket is not one of the words or a number. */
  lemma OtherStart(text: Units)
    requires text != [] && (text[0] == QUOTE || text[0] == OPEN_LIST || text[0] == OPEN_OBJECT)
    ensures !(NULL_TEXT <= text) && !(TRUE_TEXT <= text) && !(FALSE_TEXT <= text) && !NumberUnit(text[0])
  {
    assert NULL_TEXT[0] != text[0] && TRUE_TEXT[0] != text[0] && FALSE_TEXT[0] != text[0];
  }

  lemma {:induction false} PrintIsNotEmpty(v: Json)
    requires Printable(v)
    ensures Print(v) != [] && Print(v)[0] != CLOSE_LIST && Print(v)[0] != COMMA
  {
  }

  /** Parsing the printed text gives the value back, whatever follows it. */
  lemma {:induction false} RoundTrip(v: Json, rest: Units)
    requires Printable(v) && Ends(rest)
    ensures ParseValue(Print(v) + rest) == Some(Parsed(v, rest))
    decreases v
  {
    hide ParseValue, Quoted, NumberUnit, Ends, ParseItems, ParseEntries, PrintItems, PrintEntries;
    match v
    case Null => WordRoundTrip(rest);
    case Bool(flag) => WordRoundTrip(rest);
    case Num(digits) => NumberRoundTrip(digits, rest);
    case Str(text) => StringValue(text, rest);
    case Arr(items) =>
      ItemsRoundTrip(items, 0, rest);
      ListValue(PrintItems(items, 0) + rest);
      assert Print(v) + rest == [OPEN_LIST] + (PrintItems(items, 0) + rest);
      assert items[0..] == items;
    case Obj(entries) =>
      EntriesRoundTrip(entries, 0, rest);
      ObjectValue(PrintEntries(entries, 0) + rest);
      assert Print(v) + rest == [OPEN_OBJECT] + (PrintEntries(entries, 0) + rest);
      assert entries[0..] == entries;
  }

  lemma ItemFound(item: Units, first: bool)
    ensures NextItem((if first then [] else [COMMA]) + item, first) == Some(item)
  {
    Dropped([COMMA], item);
    assert [] + item == item;
  }

  /** Reading one item of a list, and the rest of the list after it. */
  lemma OneItem(text: Units, item: Units, v: Json, more: Units, first: bool)
    requires text == (if first then [] else [COMMA]) + item && ParseValue(item) == Some(Parsed(v, more))
    requires item != [] && item[0] != CLOSE_LIST
    ensures ParseItems(text, first) ==
            var r := ParseItems(more, false);
            if r.None? then None else Some(Parsed([v] + r.value.value, r.value.rest))
  {
    hide ParseValue;
    ItemFound(item, first);
  }

  lemma OneEntry(text: Units, key: Units, e: Entry, value: Units, more: Units, first: bool)
    requires text == (if first then [] else [COMMA]) + key && key != [] && key[0] == QUOTE
    requires ReadString(key[1..]) == Some(Parsed(e.key, [COLON] + value))
             && ParseValue(value) == Some(Parsed(e.value, more))
    ensures ParseEntries(text, first) ==
            var r := ParseEntries(more, false);
            if r.None? then None else Some(Parsed([e] + r.value.value, r.value.rest))
  {
    hide ParseValue, ReadString;
    ItemFound(key, first);
    Dropped([COLON], value);
  }

  lemma ItemsEnd(items: seq<Json>, i: nat, rest: Units)
    requires i <= |items| && i > 0
    ensures Ends(PrintItems(items, i) + rest)
  {
    hide Print;
  }

  lemma EntriesEnd(entries: seq<Entry>, i: nat, rest: Units)
    requires i <= |entries| && i > 0
    ensures Ends(PrintEntries(entries, i) + rest)
  {
    hide Print, Quoted;
  }

  lemma ListEnd(rest: Units, first: bool)
    ensures ParseItems([CLOSE_LIST] + rest, first) == Some(Parsed([], rest))
    ensures ParseEntries([CLOSE_OBJECT] + rest, first) == Some(Parsed([], rest))
  {
    Dropped([CLOSE_LIST], rest);
    Dropped([CLOSE_OBJECT], rest);
  }

  lemma {:induction false} ItemsRoundTrip(items: seq<Json>, i: nat, rest: Units)
    requires i <= |items| && forall k :: 0 <= k < |items| ==> Printable(items[k])
    ensures ParseItems(PrintItems(items, i) + rest, i == 0) == Some(Parsed(items[i..], rest))
    decreases items, |items| - i
  {
    hide Print, Printable, ParseValue, Ends, ParseItems;
    if i == |items| {
      ListEnd(rest, i == 0);
    } else {
      var more := PrintItems(items, i + 1) + rest;
      ItemsEnd(items, i + 1, rest);
      RoundTrip(items[i], more);
      ItemsRoundTrip(items, i + 1, rest);
      PrintIsNotEmpty(items[i]);
      Regrouped(if i == 0 then [] else [COMMA], Print(items[i]), PrintItems(items, i + 1), rest);
      assert Print(items[i]) + PrintItems(items, i + 1) + rest == Print(items[i]) + more;
      OneItem(PrintItems(items, i) + rest, Print(items[i]) + more, items[i], more, i == 0);
      assert items[i..] == [items[i]] + items[i + 1..];
    }
  }

  lemma {:induction false} EntriesRoundTrip(entries: seq<Entry>, i: nat, rest: Units)
    requires i <= |entries| && forall k :: 0 <= k < |entries| ==> Printable(entries[k].value)
    ensures ParseEntries(PrintEntries(entries, i) + rest, i == 0) == Some(Parsed(entries[i..], rest))
    decreases entries, |entries| - i
  {
    hide Print, Printable, ParseValue, Ends, Quoted, ReadString, ParseEntries;
    if i == |entries| {
      ListEnd(rest, i == 0);
    } else {
      var more := PrintEntries(entries, i + 1) + rest;
      var value := Print(entries[i].value) + more;
      var key := Quoted(entries[i].key) + ([COLON] + value);
      EntriesEnd(entries, i + 1, rest);
      RoundTrip(entries[i].value, more);
      EntriesRoundTrip(entries, i + 1, rest);
      QuotedRoundTrip(entries[i].key, [COLON] + value);
      EntryText(entries, i, rest);
      OneEntry(PrintEntries(entries, i) + rest, key, entries[i], value, more, i == 0);
      assert entries[i..] == [entries[i]] + entries[i + 1..];
    }
  }

  lemma EntryText(entries: seq<Entry>, i: nat, rest: Units)
    requires i < |entries|
    ensures PrintEntries(entries, i) + rest ==
            (if i == 0 then [] else [COMMA])
                + (Quoted(entries[i].key)
                + ([COLON] + (Print(entries[i].value) + (PrintEntries(entries, i + 1) + rest))))
  {
    hide Print, Quoted;
  }

  // ----- The text is clean

  /** No control character, and no surrogate without its other half: one line that UTF-8 can carry. */
  ghost predicate Clean(text: Units) {
    && (forall i :: 0 <= i < |text| ==> text[i] >= 0x20)
    && (forall i {:trigger High(text[i])} :: 0 <= i < |text| && High(text[i]) ==> i + 1 < |text| && Low(text[i + 1]))
    && (forall i {:trigger Low(text[i])} :: 0 <= i < |text| && Low(text[i]) ==> i > 0 && High(text[i - 1]))
  }

  lemma CleanConcat(a: Units, b: Units)
    requires Clean(a) && Clean(b)
    ensures Clean(a + b)
  {
    var c := a + b;
    forall i | 0 <= i < |c| && High(c[i]) ensures i + 1 < |c| && Low(c[i + 1]) {
      if i < |a| { assert High(a[i]) && Low(a[i + 1]); } else { assert High(b[i - |a|]) && Low(b[i - |a| + 1]); }
    }
    forall i | 0 <= i < |c| && Low(c[i]) ensures i > 0 && High(c[i - 1]) {
      if i < |a| { assert Low(a[i]) && High(a[i - 1]); } else { assert Low(b[i - |a|]) && High(b[i - |a| - 1]); }
    }
  }

  lemma PlainIsClean(text: Units)
    requires forall i :: 0 <= i < |text| ==> 0x20 <= text[i] < 0x80
    ensures Clean(text)
  {
  }

  lemma EscapeUnitIsClean(u: Unit)
    ensures Clean(EscapeUnit(u))
  {
    assert forall d: nat :: d < 16 ==> 0x20 <= HexDigit(d) < 0x80;
    if Short(u).Some? || u < 0x20 || High(u) || Low(u) {
      PlainIsClean(EscapeUnit(u));
    }
  }

  lemma {:induction false} EscapeIsClean(s: Units, i: nat)
    requires i <= |s|
    ensures Clean(EscapeFrom(s, i))
    decreases |s| - i
  {
    hide EscapeUnit;
    if i == |s| {
    } else if PairAt(s, i) {
      EscapeIsClean(s, i + 2);
      PairIsClean(s[i], s[i + 1]);
      CleanConcat([s[i], s[i + 1]], EscapeFrom(s, i + 2));
    } else {
      EscapeIsClean(s, i + 1);
      EscapeUnitIsClean(s[i]);
      CleanConcat(EscapeUnit(s[i]), EscapeFrom(s, i + 1));
    }
  }

  lemma PairIsClean(h: Unit, l: Unit)
    requires High(h) && Low(l)
    ensures Clean([h, l])
  {
  }

  lemma QuotedIsClean(s: Units)
    ensures Clean(Quoted(s))
  {
    hide EscapeFrom, Clean;
    EscapeIsClean(s, 0);
    PlainIsClean([QUOTE]);
    CleanConcat([QUOTE], EscapeFrom(s, 0));
    CleanConcat([QUOTE] + EscapeFrom(s, 0), [QUOTE]);
  }

  /** The text is one line: a raw newline in it is impossible, so it can stand as one record of a log. */
  lemma {:induction false} PrintIsClean(v: Json)
    requires Printable(v)
    ensures Clean(Print(v))
    decreases v
  {
    hide Quoted, PrintItems, PrintEntries, Clean;
    match v
    case Str(text) => QuotedIsClean(text);
    case Arr(items) =>
      ItemsAreClean(items, 0);
      PlainIsClean([OPEN_LIST]);
      CleanConcat([OPEN_LIST], PrintItems(items, 0));
    case Obj(entries) =>
      EntriesAreClean(entries, 0);
      PlainIsClean([OPEN_OBJECT]);
      CleanConcat([OPEN_OBJECT], PrintEntries(entries, 0));
    case _ => PlainIsClean(Print(v));
  }

  lemma {:induction false} ItemsAreClean(items: seq<Json>, i: nat)
    requires i <= |items| && forall k :: 0 <= k < |items| ==> Printable(items[k])
    ensures Clean(PrintItems(items, i))
    decreases items, |items| - i
  {
    hide Print, Printable, Clean;
    if i == |items| {
      PlainIsClean([CLOSE_LIST]);
    } else {
      var comma := if i > 0 then [COMMA] else [];
      PlainIsClean(comma);
      PrintIsClean(items[i]);
      ItemsAreClean(items, i + 1);
      CleanConcat(comma, Print(items[i]));
      CleanConcat(comma + Print(items[i]), PrintItems(items, i + 1));
    }
  }

  lemma {:induction false} EntriesAreClean(entries: seq<Entry>, i: nat)
    requires i <= |entries| && forall k :: 0 <= k < |entries| ==> Printable(entries[k].value)
    ensures Clean(PrintEntries(entries, i))
    decreases entries, |entries| - i
  {
    hide Print, Printable, Quoted, Clean;
    if i == |entries| {
      PlainIsClean([CLOSE_OBJECT]);
    } else {
      var comma := if i > 0 then [COMMA] else [];
      var key, value := Quoted(entries[i].key), Print(entries[i].value);
      PlainIsClean(comma);
      PlainIsClean([COLON]);
      QuotedIsClean(entries[i].key);
      PrintIsClean(entries[i].value);
      EntriesAreClean(entries, i + 1);
      CleanConcat(comma, key);
      CleanConcat(comma + key, [COLON]);
      CleanConcat(comma + key + [COLON], value);
      CleanConcat(comma + key + [COLON] + value, PrintEntries(entries, i + 1));
    }
  }

  // ----- Canonical text

  /** Numbers carry the text `JSON.stringify` gives a finite number. */
  predicate GoodNumbers(v: Json)
    decreases v
  {
    match v
    case Num(digits) => Printable(v)
    case Arr(items) => forall i :: 0 <= i < |items| ==> GoodNumbers(items[i])
    case Obj(entries) => forall i :: 0 <= i < |entries| ==> GoodNumbers(entries[i].value)
    case _ => true
  }

  /** `canonicalJson`: none where it throws. */
  function Canonical(v: Json, nfc: Normaliser): Option<Units> {
    if Norm(v, nfc).None? then None else Some(Print(Norm(v, nfc).value))
  }

  /** `JSON.parse` of a whole text. */
  function Parse(text: Units): Option<Json> {
    var r := ParseValue(text);
    if r.Some? && r.value.rest == [] then Some(r.value.value) else None
  }

  lemma {:induction false} NormIsPrintable(v: Json, nfc: Normaliser)
    requires GoodNumbers(v) && Norm(v, nfc).Some?
    ensures Printable(Norm(v, nfc).value)
    decreases v
  {
    hide SortEntries, Collide, NormItems, NormEntries;
    if v.Arr? {
      ItemsNorm(v.items, |v.items|, nfc);
      var items := NormItems(v.items, |v.items|, nfc).value;
      forall i | 0 <= i < |items| ensures Printable(items[i]) {
        assert Norm(v.items[i], nfc) == Some(items[i]);
        NormIsPrintable(v.items[i], nfc);
      }
    } else if v.Obj? {
      EntriesNorm(v.entries, |v.entries|, nfc);
      var entries := NormEntries(v.entries, |v.entries|, nfc).value;
      forall i | 0 <= i < |entries| ensures Printable(entries[i].value) {
        assert NormEntry(v.entries, i, nfc) == Some(entries[i]);
        NormIsPrintable(v.entries[i].value, nfc);
      }
      SortingEntries(entries);
      var sorted := SortEntries(entries);
      forall i | 0 <= i < |sorted| ensures Printable(sorted[i].value) {
        assert sorted[i] in entries;
      }
    }
  }

  /** Parsing the canonical text gives the normal value back. */
  lemma ParsesBack(v: Json, nfc: Normaliser)
    requires GoodNumbers(v) && Canonical(v, nfc).Some?
    ensures Parse(Canonical(v, nfc).value) == Norm(v, nfc)
  {
    hide ParseValue, Print, Norm, GoodNumbers, Printable;
    var normal := Norm(v, nfc).value;
    NormIsPrintable(v, nfc);
    RoundTrip(normal, []);
    assert Print(normal) + [] == Print(normal);
  }

  /** Two values print alike exactly when they are equal up to the order of keys, NFC and the text of numbers. */
  lemma PrintAlikeIffEqual(a: Json, b: Json, nfc: Normaliser)
    requires GoodNumbers(a) && GoodNumbers(b) && Canonical(a, nfc).Some? && Canonical(b, nfc).Some?
    ensures Canonical(a, nfc) == Canonical(b, nfc) <==> Equal(a, b, nfc)
  {
    hide Parse, Norm, GoodNumbers, Equal;
    ParsesBack(a, nfc);
    ParsesBack(b, nfc);
    NormIffEqual(a, b, nfc);
  }

  /** The canonical text of what was parsed is the text it was parsed from. */
  lemma CanonicalIsStable(v: Json, nfc: Normaliser)
    requires Idempotent(nfc) && GoodNumbers(v) && Canonical(v, nfc).Some?
    ensures Parse(Canonical(v, nfc).value).Some?
            && Canonical(Parse(Canonical(v, nfc).value).value, nfc) == Canonical(v, nfc)
  {
    hide Parse, Norm, GoodNumbers, Idempotent;
    ParsesBack(v, nfc);
    NormIsStable(v, nfc);
  }

  lemma CanonicalIsClean(v: Json, nfc: Normaliser)
    requires GoodNumbers(v) && Canonical(v, nfc).Some?
    ensures Clean(Canonical(v, nfc).value)
  {
    hide Norm, Print, Clean, GoodNumbers, Printable;
    NormIsPrintable(v, nfc);
    PrintIsClean(Norm(v, nfc).value);
  }
}
