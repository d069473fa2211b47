/** The activity journal: one line a record, a failed append cut back, a torn tail cut off when loading. */
module Journal {
  import opened Hashing
  import opened Options
  import opened TraceLog
  import Text
  import Store = ArtifactPublication

  type Id = Text.Units

  datatype Record =
    | AttemptStart(id: Id, attempt: nat)
    | AttemptError(id: Id, attempt: nat)
    | End(id: Id, attempt: nat, artifact: Store.Address)

  /** The line `canonicalJson` prints for a record, and `parseRecord`: none where it throws. */
  datatype Codec = Codec(line: Record -> Bytes, parse: Bytes -> Option<Record>)

  const MAX_SAFE_INTEGER := 0x1F_FFFF_FFFF_FFFF

  /** `validateRecord`. */
  predicate Valid(r: Record) { r.id != [] && 1 <= r.attempt <= MAX_SAFE_INTEGER }

  /** Printing normalises the record's text, so what is stored, and read back, carries the ID in NFC. */
  function Stored(r: Record, nfc: Id -> Id): Record { r.(id := nfc(r.id)) }

  /** What holds of NFC: normalising is idempotent and empties no text. */
  ghost predicate Normalises(nfc: Id -> Id) {
    forall id {:trigger nfc(id)} :: nfc(nfc(id)) == nfc(id) && (nfc(id) == [] <==> id == [])
  }

  ghost predicate Sound(c: Codec, nfc: Id -> Id) {
    && Normalises(nfc)
    && forall r {:trigger c.line(r)} :: Valid(r) ==>
        c.line(r) != [] && NEWLINE !in c.line(r) && c.parse(c.line(r)) == Some(Stored(r, nfc))
  }

  // ----- Encoding and loading

  function Encode(records: seq<Record>, c: Codec): Bytes {
    if records == [] then [] else Encode(records[..|records| - 1], c) + c.line(records[|records| - 1]) + [NEWLINE]
  }

  function ParseLines(lines: seq<Bytes>, c: Codec): Option<seq<Record>> {
    if lines == [] then Some([])
    else
      var front, last := ParseLines(lines[..|lines| - 1], c), c.parse(lines[|lines| - 1]);
      if front.None? || last.None? then None else Some(front.value + [last.value])
  }

  /** The records of the complete lines: none if one of them does not parse. */
  function Loaded(bytes: Bytes, c: Codec): Option<seq<Record>> {
    var lines := Split(bytes[..CommittedLength(bytes)]);
    ParseLines(lines[..|lines| - 1], c)
  }

  ghost predicate AllNormal(records: seq<Record>, nfc: Id -> Id) {
    forall i {:trigger records[i]} :: 0 <= i < |records| ==> Valid(records[i]) && Stored(records[i], nfc) == records[i]
  }

  lemma EncodeAppend(records: seq<Record>, r: Record, c: Codec)
    ensures Encode(records + [r], c) == Encode(records, c) + c.line(r) + [NEWLINE]
  {
    assert (records + [r])[..|records|] == records;
  }

  lemma EncodeBoundary(records: seq<Record>, c: Codec)
    ensures Boundary(Encode(records, c), |Encode(records, c)|)
  {
  }

  function LinesOf(records: seq<Record>, c: Codec): seq<Bytes> {
    if records == [] then [] else LinesOf(records[..|records| - 1], c) + [c.line(records[|records| - 1])]
  }

  lemma {:induction false} SplitEncoded(records: seq<Record>, c: Codec, nfc: Id -> Id)
    requires Sound(c, nfc) && AllNormal(records, nfc)
    ensures Split(Encode(records, c)) == LinesOf(records, c) + [[]]
  {
    if records == [] {
    } else {
      var front, line := records[..|records| - 1], c.line(records[|records| - 1]);
      SplitEncoded(front, c, nfc);
      SplitLine(Encode(front, c), LinesOf(front, c), line);
      SplitEnd(Encode(front, c) + line);
    }
  }

  lemma ParsesOne(r: Record, c: Codec, nfc: Id -> Id)
    requires Sound(c, nfc) && Valid(r) && Stored(r, nfc) == r
    ensures c.parse(c.line(r)) == Some(r)
  {
  }

  lemma {:induction false} ParsesLines(records: seq<Record>, c: Codec, nfc: Id -> Id)
    requires Sound(c, nfc) && AllNormal(records, nfc)
    ensures ParseLines(LinesOf(records, c), c) == Some(records)
  {
    hide Sound;
    if records != [] {
      var n := |records| - 1;
      ParsesLines(records[..n], c, nfc);
      assert LinesOf(records, c)[..|LinesOf(records, c)| - 1] == LinesOf(records[..n], c);
      assert records == records[..n] + [records[n]];
      ParsesOne(records[n], c, nfc);
    }
  }

  /** Whatever torn line a crash leaves after them, loading yields exactly the complete records, in order. */
  lemma LoadsCompleteRecords(records: seq<Record>, torn: Bytes, c: Codec, nfc: Id -> Id)
    requires Sound(c, nfc) && AllNormal(records, nfc) && NEWLINE !in torn
    ensures Loaded(Encode(records, c) + torn, c) == Some(records)
    ensures CommittedLength(Encode(records, c) + torn) == |Encode(records, c)|
  {
    hide Encode, Split, Sound, CommittedLength;
    var whole := Encode(records, c);
    var bytes := whole + torn;
    EncodeBoundary(records, c);
    assert |whole| > 0 ==> bytes[|whole| - 1] == whole[|whole| - 1];
    assert forall i :: |whole| <= i < |bytes| ==> bytes[i] == torn[i - |whole|];
    CommittedIs(bytes, |whole|);
    assert bytes[..|whole|] == whole;
    SplitEncoded(records, c, nfc);
    ParsesLines(records, c, nfc);
    assert (LinesOf(records, c) + [[]])[..|LinesOf(records, c)|] == LinesOf(records, c);
  }

  /** How many records a crash that keeps `kept` bytes leaves whole. */
  function Whole(records: seq<Record>, c: Codec, kept: nat): (m: nat)
    ensures m <= |records|
  {
    if records == [] || |Encode(records, c)| <= kept then |records| else Whole(records[..|records| - 1], c, kept)
  }

  function Kept(bytes: Bytes, kept: nat): Bytes { if kept <= |bytes| then bytes[..kept] else bytes }

  lemma {:induction false} PrefixIsWholeAndTorn(records: seq<Record>, kept: nat, c: Codec, nfc: Id -> Id)
    returns (torn: Bytes)
    requires Sound(c, nfc) && AllNormal(records, nfc)
    ensures NEWLINE !in torn && Kept(Encode(records, c), kept) == Encode(records[..Whole(records, c, kept)], c) + torn
  {
    if records == [] || |Encode(records, c)| <= kept {
      torn := [];
      assert records[..|records|] == records;
    } else {
      var n := |records| - 1;
      var front, line := Encode(records[..n], c), c.line(records[n]);
      assert Valid(records[n]);
      if kept < |front| {
        torn := PrefixIsWholeAndTorn(records[..n], kept, c, nfc);
        assert Encode(records, c)[..kept] == front[..kept];
        assert records[..n][..Whole(records[..n], c, kept)] == records[..Whole(records[..n], c, kept)];
      } else {
        torn := line[..kept - |front|];
        assert Encode(records, c)[..kept] == front + torn;
        assert Whole(records[..n], c, kept) == n && records[..n][..n] == records[..n];
      }
    }
  }

  /** A crash that keeps any prefix of the bytes loses only the last records, and at most one of them partly. */
  lemma CrashKeepsWholeRecords(records: seq<Record>, kept: nat, c: Codec, nfc: Id -> Id)
    requires Sound(c, nfc) && AllNormal(records, nfc)
    ensures Loaded(Kept(Encode(records, c), kept), c) == Some(records[..Whole(records, c, kept)])
  {
    hide Encode, Loaded, Sound, Whole, Kept;
    var torn := PrefixIsWholeAndTorn(records, kept, c, nfc);
    LoadsCompleteRecords(records[..Whole(records, c, kept)], torn, c, nfc);
  }

  /** A record is kept when every byte up to its newline is. */
  lemma {:induction false} WholeAtLeast(records: seq<Record>, c: Codec, kept: nat, k: nat)
    requires k <= |records| && |Encode(records[..k], c)| <= kept
    ensures Whole(records, c, kept) >= k
  {
    if k == |records| {
      assert records[..k] == records;
    } else if |Encode(records, c)| > kept {
      assert records[..|records| - 1][..k] == records[..k];
      WholeAtLeast(records[..|records| - 1], c, kept, k);
    }
  }

  // ----- The file

  /** A journal on disk, appended to by one writer. */
  class JournalFile {
    const codec: Codec
    var bytes: Bytes

    constructor (bytes: Bytes, codec: Codec)
      ensures this.bytes == bytes && this.codec == codec
    {
      this.bytes := bytes;
      this.codec := codec;
    }

    /** `append`: when the write or the sync `fails`, after `written` bytes got to the file, the file is cut back. */
    method Append(r: Record, fails: bool, written: nat) returns (ok: bool)
      modifies this
      ensures ok <==> Valid(r) && !fails
      ensures bytes == if ok then old(bytes) + codec.line(r) + [NEWLINE] else old(bytes)
      ensures forall records {:trigger Encode(records, codec)} :: old(bytes) == Encode(records, codec) ==>
                bytes == Encode(if ok then records + [r] else records, codec)
    {
      if !Valid(r) {
        return false;
      }
      var start, text := |bytes|, codec.line(r) + [NEWLINE];
      if fails {
        bytes := bytes + text[..if written <= |text| then written else |text|];
        bytes := bytes[..start];
        return false;
      }
      bytes := bytes + text;
      ok := true;
      forall records | old(bytes) == Encode(records, codec) ensures bytes == Encode(records + [r], codec) {
        EncodeAppend(records, r, codec);
      }
    }

    /** `loadJournal`: cuts the torn tail off the file and parses the lines before it. */
    method Load() returns (records: Option<seq<Record>>, truncated: nat)
      modifies this
      ensures records == Loaded(old(bytes), codec)
      ensures bytes == old(bytes)[..CommittedLength(old(bytes))] && truncated == |old(bytes)| - |bytes|
    {
      var retained := CommittedLength(bytes);
      truncated := |bytes| - retained;
      if truncated > 0 {
        bytes := bytes[..retained];
      }
      assert bytes == old(bytes)[..retained];
      var lines := Split(bytes);
      records := ParseLines(lines[..|lines| - 1], codec);
    }
  }
}
