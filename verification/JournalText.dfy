/** The lines the journal is written in: canonical JSON in
    UTF-8, read back by `JSON.parse` and a check of the fields. */
module JournalText {
  import opened Hashing
  import opened Options
  import opened Text
  import opened CanonicalJson
  import opened JsonText
  import opened KeyOrder
  import opened Journal
  import Activity
  import TraceLog
  import ArtifactIdentity
  import Store = ArtifactPublication

  /** What a line takes from elsewhere: NFC, UTF-8, the text of
      an error, and the reference an `end` names its artifact by. */
  datatype Forms = Forms(
    nfc: Normaliser,
    encode: ArtifactIdentity.Encoder,
    decode: ArtifactIdentity.Decoder,
    errorText: Record -> Units,
    reference: Store.Address -> Json,
    referred: Json -> Option<Store.Address>)

  predicate Ascii(text: Units) { forall i :: 0 <= i < |text| ==> text[i] < 0x80 }

  /** NFC, UTF-8 and references do what they are for. */
  ghost predicate Fit(forms: Forms) {
    && Normalises(forms.nfc)
    && (forall text {:trigger forms.nfc(text)} :: Ascii(text) ==> forms.nfc(text) == text)
    && ArtifactIdentity.Utf8(forms.encode, forms.decode)
    && (forall text {:trigger forms.encode(text)} :: Clean(text) ==>
          TraceLog.NEWLINE !in forms.encode(text) && (forms.encode(text) == [] ==> text == []))
    && (forall a {:trigger forms.reference(a)} ::
          && Norm(forms.reference(a), forms.nfc) == Some(forms.reference(a)) && GoodNumbers(forms.reference(a))
          && forms.referred(Built(forms.reference(a))) == Some(a))
  }

  // ----- A record and its object

  const T: Units := [0x74]
  const ID: Units := [0x69, 0x64]
  const ATTEMPT: Units := [0x61, 0x74, 0x74, 0x65, 0x6d, 0x70, 0x74]
  const ERROR: Units := [0x65, 0x72, 0x72, 0x6f, 0x72]
  const OK: Units := [0x6f, 0x6b]
  const ARTIFACT: Units := [0x61, 0x72, 0x74, 0x69, 0x66, 0x61, 0x63, 0x74]
  const USAGE: Units := [0x75, 0x73, 0x61, 0x67, 0x65]

  /** "attempt_start", "attempt_error" and "end". */
  const START_TAG: Units := ATTEMPT + [0x5f, 0x73, 0x74, 0x61, 0x72, 0x74]
  const ERROR_TAG: Units := ATTEMPT + [0x5f] + ERROR
  const END_TAG: Units := [0x65, 0x6e, 0x64]

  function Fields(r: Record, forms: Forms): seq<Entry> {
    var common := [Entry(ID, Str(r.id)), Entry(ATTEMPT, Num(Decimal(r.attempt)))];
    match r
    case AttemptStart(_, _) => [Entry(T, Str(START_TAG))] + common
    case AttemptError(_, _) => [Entry(T, Str(ERROR_TAG))] + common + [Entry(ERROR, Str(forms.errorText(r)))]
    case End(_, _, artifact) =>
      [Entry(T, Str(END_TAG))] + common
      + [Entry(OK, Bool(true)), Entry(ARTIFACT, forms.reference(artifact)), Entry(USAGE, Null)]
  }

  predicate IsText(field: Option<Json>) { field.Some? && field.value.Str? }

  function AttemptOf(field: Option<Json>): Option<nat> {
    if field.None? || !field.value.Num? then None
    else
      var n := NumberOf(field.value.digits);
      if n.None? || !(1 <= n.value <= MAX_SAFE_INTEGER) then None else n
  }

  /** `isRecord`, and the record it finds. */
  function RecordOf(v: Json, forms: Forms): Option<Record> {
    if !v.Obj? then None
    else
      var t, id, attempt := Field(v.entries, T), Field(v.entries, ID), AttemptOf(Field(v.entries, ATTEMPT));
      if !IsText(t) || !IsText(id) || attempt.None? then None
      else if t.value.text == START_TAG then Some(AttemptStart(id.value.text, attempt.value))
      else if t.value.text == ERROR_TAG then
        if IsText(Field(v.entries, ERROR)) then Some(AttemptError(id.value.text, attempt.value)) else None
      else
        var artifact := Field(v.entries, ARTIFACT);
        if t.value.text != END_TAG || Field(v.entries, OK) != Some(Bool(true)) || Field(v.entries, USAGE) != Some(Null)
           || artifact.None? || forms.referred(artifact.value).None? then None
        else Some(End(id.value.text, attempt.value, forms.referred(artifact.value).value))
  }

  /** What a record found must have had: texts for its tag and ID, an attempt from 1
      up to the largest safe integer, and the other fields its kind is written with. */
  lemma RecordIsChecked(v: Json, forms: Forms)
    requires RecordOf(v, forms).Some?
    ensures v.Obj?
    ensures var r, entries := RecordOf(v, forms).value, v.entries;
            && Field(entries, ID) == Some(Str(r.id)) && 1 <= r.attempt <= MAX_SAFE_INTEGER
            && IsNumber(Field(entries, ATTEMPT), r.attempt)
            && match r
               case AttemptStart(_, _) => Field(entries, T) == Some(Str(START_TAG))
               case AttemptError(_, _) => Field(entries, T) == Some(Str(ERROR_TAG)) && IsText(Field(entries, ERROR))
               case End(_, _, artifact) =>
                 && Field(entries, T) == Some(Str(END_TAG)) && Field(entries, OK) == Some(Bool(true))
                 && Field(entries, USAGE) == Some(Null) && Field(entries, ARTIFACT).Some?
                 && forms.referred(Field(entries, ARTIFACT).value) == Some(artifact)
  {
  }

  predicate IsNumber(field: Option<Json>, n: nat) {
    field.Some? && field.value.Num? && NumberOf(field.value.digits) == Some(n)
  }

  /** The line of a record, without its newline; empty where the printer would throw. */
  function LineOf(r: Record, forms: Forms): Bytes {
    var text := Canonical(Obj(Fields(r, forms)), forms.nfc);
    if text.None? then [] else forms.encode(text.value)
  }

  function ParseLine(line: Bytes, forms: Forms): Option<Record> {
    var text := forms.decode(line);
    if text.None? || ArtifactIdentity.Revive(text.value).None? then None
    else RecordOf(ArtifactIdentity.Revive(text.value).value, forms)
  }

  function LineCodec(forms: Forms): Codec { Codec(r => LineOf(r, forms), line => ParseLine(line, forms)) }

  // ----- Reading a field back

  lemma {:induction false} FieldFound(entries: seq<Entry>, e: Entry)
    requires !Repeats(entries) && e in entries
    ensures Field(entries, e.key) == Some(e.value)
  {
    var i :| 0 <= i < |entries| && entries[i] == e;
    if i > 0 {
      assert entries[0].key != e.key;
      assert !Repeats(entries[1..]) by {
        assert forall k :: 0 <= k < |entries| - 1 ==> entries[1..][k] == entries[k + 1];
      }
      assert entries[1..][i - 1] == e;
      FieldFound(entries[1..], e);
    }
  }

  /** An object of differently named fields that can be printed
      is read back with each of its fields, named as before. */
  lemma FieldsComeBack(entries: seq<Entry>, nfc: Normaliser)
    requires !Repeats(entries)
    requires forall i :: 0 <= i < |entries| ==>
             Norm(entries[i].value, nfc).Some? && nfc(entries[i].key) == entries[i].key
    ensures Norm(Obj(entries), nfc).Some? && Built(Norm(Obj(entries), nfc).value).Obj?
    ensures forall i {:trigger entries[i]} :: 0 <= i < |entries| ==>
              Field(Built(Norm(Obj(entries), nfc).value).entries, entries[i].key)
                  == Some(Built(Norm(entries[i].value, nfc).value))
  {
    hide Norm, Built, Listed, NormEntries, SortEntries, Collide;
    NormObject(entries, nfc);
    ObjectThrowsIffKeysCollide(entries, nfc);
    EntriesNorm(entries, |entries|, nfc);
    var r := NormEntries(entries, |entries|, nfc).value;
    NormKeys(entries, r, nfc);
    var sorted := SortEntries(r);
    SortingEntries(r);
    assert Norm(Obj(entries), nfc) == Some(Obj(sorted));
    NoCollisionIsStrict(sorted);
    var built := BuiltEntries(sorted, |sorted|);
    assert Built(Obj(sorted)) == Obj(Listed(built)) by { BuiltObject(sorted); }
    assert !Repeats(built) by {
      forall i, j | 0 <= i < j < |built| ensures built[i].key != built[j].key {
        assert Less(sorted[i].key, sorted[j].key);
      }
    }
    ListedSame(built);
    forall i | 0 <= i < |entries|
      ensures Field(Listed(built), entries[i].key) == Some(Built(Norm(entries[i].value, nfc).value))
    {
      assert NormEntry(entries, i, nfc) == Some(r[i]);
      assert r[i] in sorted;
      var k :| 0 <= k < |sorted| && sorted[k] == r[i];
      assert built[k] in built && built[k] in Listed(built);
      FieldFound(Listed(built), built[k]);
    }
  }

  lemma BuiltObject(entries: seq<Entry>)
    ensures Built(Obj(entries)) == Obj(Listed(BuiltEntries(entries, |entries|)))
  {
  }

  /** Tells the keys of a record apart. */
  ghost function Rank(key: Units): int { if key == [] then 0 else |key| * 0x1_0000 + key[0] }

  lemma KeysAreAscii()
    ensures Ascii(T) && Ascii(ID) && Ascii(ATTEMPT) && Ascii(ERROR) && Ascii(OK) && Ascii(ARTIFACT) && Ascii(USAGE)
  {
  }

  lemma RanksDiffer()
    ensures Rank(T) == 0x1_0074 && Rank(ID) == 0x2_0069 && Rank(ATTEMPT) == 0x7_0061 && Rank(ERROR) == 0x5_0065
    ensures Rank(OK) == 0x2_006f && Rank(ARTIFACT) == 0x8_0061 && Rank(USAGE) == 0x5_0075
  {
  }

  lemma FieldsDiffer(r: Record, forms: Forms)
    ensures !Repeats(Fields(r, forms))
    ensures forall i :: 0 <= i < |Fields(r, forms)| ==> Ascii(Fields(r, forms)[i].key)
  {
    hide Rank, Ascii;
    var entries := Fields(r, forms);
    KeysAreAscii();
    RanksDiffer();
    var ranks :=
      if r.AttemptStart? then [0x1_0074, 0x2_0069, 0x7_0061]
      else if r.AttemptError? then [0x1_0074, 0x2_0069, 0x7_0061, 0x5_0065]
      else [0x1_0074, 0x2_0069, 0x7_0061, 0x2_006f, 0x8_0061, 0x5_0075];
    assert |ranks| == |entries| && forall i :: 0 <= i < |ranks| ==> Rank(entries[i].key) == ranks[i];
    forall i, j | 0 <= i < j < |entries| ensures entries[i].key != entries[j].key {
      assert ranks[i] != ranks[j];
    }
  }

  lemma FieldsPrint(r: Record, forms: Forms)
    requires Fit(forms)
    ensures forall i :: 0 <= i < |Fields(r, forms)| ==>
              && Norm(Fields(r, forms)[i].value, forms.nfc).Some? && GoodNumbers(Fields(r, forms)[i].value)
              && forms.nfc(Fields(r, forms)[i].key) == Fields(r, forms)[i].key
  {
    hide Built, Normalises, Clean;
    FieldsDiffer(r, forms);
  }

  /** Every record the journal accepts is read back as it was stored, and its line holds no newline. */
  lemma RecordComesBack(r: Record, forms: Forms)
    requires Fit(forms) && Valid(r)
    ensures LineOf(r, forms) != [] && TraceLog.NEWLINE !in LineOf(r, forms)
    ensures ParseLine(LineOf(r, forms), forms) == Some(Stored(r, forms.nfc))
  {
    hide Fields, Field, Norm, Built, Clean, GoodNumbers, Print, Parse, Repeats, RecordOf, Normalises;
    var entries := Fields(r, forms);
    FieldsDiffer(r, forms);
    FieldsPrint(r, forms);
    FieldsComeBack(entries, forms.nfc);
    assert GoodNumbers(Obj(entries)) by { NumbersOf(entries); }
    CanonicalIsClean(Obj(entries), forms.nfc);
    ParsesBack(Obj(entries), forms.nfc);
    var text := Canonical(Obj(entries), forms.nfc).value;
    assert forms.decode(forms.encode(text)) == Some(text);
    NotEmpty(text);
    RecordReadsBack(r, Built(Norm(Obj(entries), forms.nfc).value), forms);
  }

  lemma NumbersOf(entries: seq<Entry>)
    requires forall i :: 0 <= i < |entries| ==> GoodNumbers(entries[i].value)
    ensures GoodNumbers(Obj(entries))
  {
  }

  lemma NotEmpty(text: Units)
    requires Parse(text).Some?
    ensures text != []
  {
  }

  lemma RecordReadsBack(r: Record, v: Json, forms: Forms)
    requires Fit(forms) && Valid(r) && v.Obj?
    requires forall i {:trigger Fields(r, forms)[i]} :: 0 <= i < |Fields(r, forms)| ==>
               && Norm(Fields(r, forms)[i].value, forms.nfc).Some?
               && Field(v.entries, Fields(r, forms)[i].key)
                   == Some(Built(Norm(Fields(r, forms)[i].value, forms.nfc).value))
    ensures RecordOf(v, forms) == Some(Stored(r, forms.nfc))
  {
    hide Field, Repeats, Normalises, Clean, GoodNumbers, Decimal, NumberOf;
    var entries := Fields(r, forms);
    assert entries[0].key == T && entries[1] == Entry(ID, Str(r.id))
        && entries[2] == Entry(ATTEMPT, Num(Decimal(r.attempt)));
    DecimalIsNumber(r.attempt);
    TagsDiffer(forms.nfc);
    match r {
      case AttemptStart(_, _) =>
      case AttemptError(_, _) => assert entries[3].key == ERROR;
      case End(_, _, artifact) => assert entries[3].key == OK && entries[4].key == ARTIFACT && entries[5].key == USAGE;
    }
  }

  lemma TagsDiffer(nfc: Normaliser)
    requires forall text {:trigger nfc(text)} :: Ascii(text) ==> nfc(text) == text
    ensures nfc(START_TAG) == START_TAG && nfc(ERROR_TAG) == ERROR_TAG && nfc(END_TAG) == END_TAG
    ensures START_TAG != ERROR_TAG && START_TAG != END_TAG && ERROR_TAG != END_TAG
  {
    assert START_TAG[8] != ERROR_TAG[8];
    assert START_TAG[0] != END_TAG[0] && ERROR_TAG[0] != END_TAG[0];
  }

  /** The journal's own printer and parser meet what loading after a crash needs of them. */
  lemma LineCodecIsSound(forms: Forms)
    requires Fit(forms)
    ensures Sound(LineCodec(forms), forms.nfc)
  {
    hide Fit, LineOf, ParseLine, Valid, Stored;
    var c := LineCodec(forms);
    assert Normalises(forms.nfc) by { Parts(forms); }
    forall r | Valid(r) ensures c.line(r) != [] && TraceLog.NEWLINE !in c.line(r)
        && c.parse(c.line(r)) == Some(Stored(r, forms.nfc)) {
      RecordComesBack(r, forms);
    }
  }

  lemma Parts(forms: Forms)
    requires Fit(forms)
    ensures Normalises(forms.nfc)
  {
  }

  /** With that printer and parser: after a crash in any run, the
      bytes left load as the records the restart starts from. */
  lemma RestartReadsItsOwnLines(events: seq<Activity.Event>, kept: nat, forms: Forms)
    requires Fit(forms)
    ensures var env := Activity.Env(LineCodec(forms), forms.nfc);
            var s := Activity.Run(Activity.START, events, env);
            Loaded(Kept(Encode(Activity.Written(s, env.nfc), env.codec), kept), env.codec)
            == Some(Activity.Step(s, Activity.Crash(kept), env).records)
  {
    hide *;
    LineCodecIsSound(forms);
    Activity.RestartLoadsWhatIsLeft(events, kept, Activity.Env(LineCodec(forms), forms.nfc));
  }
}
