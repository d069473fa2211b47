/** An artifact's address and its content: canonical text, published and read back. */
module ArtifactIdentity {
  import opened Hashing
  import opened Options
  import opened Text
  import opened CanonicalJson
  import opened JsonText
  import opened KeyOrder
  import Store = ArtifactPublication

  /** UTF-8: `TextEncoder` and a fatal `TextDecoder`. */
  type Encoder = Units -> Bytes
  type Decoder = Bytes -> Option<Units>

  /** Text without lone surrogates survives the encoding. */
  ghost predicate Utf8(encode: Encoder, decode: Decoder) {
    forall text {:trigger encode(text)} :: Clean(text) ==> decode(encode(text)) == Some(text)
  }

  /** `contentAddress`: none where the value cannot be printed. */
  function ContentAddress(v: Json, extension: string, nfc: Normaliser, encode: Encoder): Option<Store.Address> {
    if Canonical(v, nfc).None? then None else Some(Store.AddressOf(encode(Canonical(v, nfc).value), extension))
  }

  /** The value `get` returns: none where it throws. */
  function GetValue(s: Store.Sys, a: Store.Address, byteLength: nat, decode: Decoder): Option<Json> {
    var bytes := Store.Get(s, a, byteLength);
    if bytes.None? || decode(bytes.value).None? then None else Revive(decode(bytes.value).value)
  }

  /** `JSON.parse`. */
  function Revive(text: Units): Option<Json> {
    if Parse(text).None? then None else Some(Built(Parse(text).value))
  }

  /** Two values share an address exactly when they are equal up to the order of keys, NFC and the text of numbers. */
  lemma SameAddressIffEqual(a: Json, b: Json, extension: string, nfc: Normaliser, encode: Encoder, decode: Decoder)
    requires Utf8(encode, decode) && GoodNumbers(a) && GoodNumbers(b)
    requires ContentAddress(a, extension, nfc, encode).Some? && ContentAddress(b, extension, nfc, encode).Some?
    ensures ContentAddress(a, extension, nfc, encode) == ContentAddress(b, extension, nfc, encode) <==> Equal(a, b, nfc)
  {
    hide Norm, Canonical, Clean, GoodNumbers, Equal;
    CanonicalIsClean(a, nfc);
    CanonicalIsClean(b, nfc);
    PrintAlikeIffEqual(a, b, nfc);
    assert decode(encode(Canonical(a, nfc).value)) == Canonical(a, nfc)
        && decode(encode(Canonical(b, nfc).value)) == Canonical(b, nfc);
  }

  /**
   * After any run of concurrent puts and crashes, a `put` that returned is read back as the normalised value, its
   * keys as `JSON.parse` orders them: equal to the value put, and published again under the address it was read from.
   */
  lemma GetAfterPut(start: Store.Sys, events: seq<Store.Event>, id: nat, v: Json, nfc: Normaliser, encode: Encoder,
      decode: Decoder)
    requires Store.Initial(start) && forall i :: 0 <= i < |events| ==> Store.Covered(events[i], false)
    requires Utf8(encode, decode) && Idempotent(nfc) && GoodNumbers(v) && Canonical(v, nfc).Some?
    requires id in Store.Run(start, events).writers && Store.Run(start, events).writers[id].stage.Returned?
    requires Store.Run(start, events).writers[id].bytes == encode(Canonical(v, nfc).value)
    ensures var s := Store.Run(start, events);
            var w := s.writers[id];
            var got := GetValue(s, w.name.target, |w.bytes|, decode);
            && got == Some(Built(Norm(v, nfc).value)) && Norm(got.value, nfc) == Norm(v, nfc)
            && Equal(v, got.value, nfc)
            && ContentAddress(got.value, w.name.target.extension, nfc, encode) == Some(w.name.target)
  {
    hide Norm, Canonical, Parse, Clean, GoodNumbers, Equal, Built, Idempotent, Store.Run, Store.Step, Store.Covered,
        Store.StagedAsItSays;
    var s := Store.Run(start, events);
    Store.RunKeepsInvariant(start, events, false);
    Store.ReturnedAreReadable(s);
    CanonicalIsClean(v, nfc);
    ParsesBack(v, nfc);
    assert decode(encode(Canonical(v, nfc).value)) == Canonical(v, nfc);
    BuiltIsSame(v, nfc);
    assert Revive(Canonical(v, nfc).value) == Some(Built(Norm(v, nfc).value));
    AddressNamesBytes(s, id);
  }

  /** Reviving the canonical text of a value gives an equal value, with the same canonical text. */
  lemma BuiltIsSame(v: Json, nfc: Normaliser)
    requires Idempotent(nfc) && Canonical(v, nfc).Some?
    ensures Norm(v, nfc).Some?
    ensures var built := Built(Norm(v, nfc).value);
            Norm(built, nfc) == Norm(v, nfc) && Canonical(built, nfc) == Canonical(v, nfc) && Equal(v, built, nfc)
  {
    hide Norm, Equal, Built, Idempotent;
    var normal := Norm(v, nfc).value;
    NormIsStable(v, nfc);
    BuiltNorm(normal, nfc);
    NormIffEqual(v, Built(normal), nfc);
  }

  lemma AddressNamesBytes(s: Store.Sys, id: nat)
    requires Store.Invariant(s) && id in s.writers
    ensures s.writers[id].name.target == Store.AddressOf(s.writers[id].bytes, s.writers[id].name.target.extension)
  {
    Store.StagedOf(s, id);
  }
}
