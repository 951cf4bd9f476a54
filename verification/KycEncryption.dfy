/**
 Field-wise encryption of KYC payloads, the payload checksum, and the preparation of one row
 for the data migration. Ciphers, the hash and the JSON parser are abstract functions with laws.
 */
module KycEncryption {
  import opened Wrappers
  import opened Json
  import opened JsonCanonical

  type Payload = seq<Entry>

  /**
   `enc`/`dec`: the field cipher (first argument: the random salt); `to`/`from`: the outer cipher
   over a whole JSON value; `parse`: `JSON.parse`; `jsonText`: `JSON.stringify`; `hash`: SHA-256.
   */
  datatype Crypto = Crypto(
    enc: (Text, Text) -> Text,
    dec: Text -> Option<Text>,
    to: (Text, Json) -> Text,
    from: Text -> Option<Json>,
    parse: Text -> Option<Json>,
    jsonText: Json -> Text,
    hash: Text -> Text)

  ghost predicate Lawful(c: Crypto) {
    && (forall salt, p :: c.enc(salt, p) != [] && c.dec(c.enc(salt, p)) == Some(p))
    && (forall salt, v :: WellFormed(v) ==> c.to(salt, v) != [] && c.from(c.to(salt, v)) == Some(v))
    && (forall t :: c.from(t).Some? ==> WellFormed(c.from(t).value))
    && (forall t :: c.parse(t).Some? ==> WellFormed(c.parse(t).value))
    && (forall t :: c.parse(t).Some? && c.parse(t).value.Obj? ==> c.from(t) == None)
    && (forall a, b :: c.hash(a) == c.hash(b) ==> a == b)
    && (forall a :: c.hash(a) != [])
  }

  function Ascii(s: string): Text {
    seq(|s|, i requires 0 <= i < |s| => (s[i] as int) % 0x10000)
  }

  const FIELD_NAMES: seq<string> := [
    "first_name", "last_name", "date_of_birth", "address", "city", "state", "postal_code", "country",
    "id_number", "tax_id", "phone_number", "bank_account_number", "bank_routing_number"]

  function SensitiveFields(): seq<Text> {
    seq(|FIELD_NAMES|, i requires 0 <= i < |FIELD_NAMES| => Ascii(FIELD_NAMES[i]))
  }

  predicate Sensitive(k: Text) {
    k in SensitiveFields()
  }

  lemma SensitiveFieldsDistinct(i: nat, j: nat)
    requires i < j < |FIELD_NAMES|
    ensures SensitiveFields()[i] != SensitiveFields()[j]
  {
    var a, b := FIELD_NAMES[i], FIELD_NAMES[j];
    if |a| == |b| {
      var p := if |a| == 19 then 5 else 0;
      assert a[p] != b[p];
      assert Ascii(a)[p] == (a[p] as int) % 0x10000 && Ascii(b)[p] == (b[p] as int) % 0x10000;
    } else {
      assert |Ascii(a)| == |a| && |Ascii(b)| == |b|;
    }
  }

  /** The thirteen names; with `SensitiveFieldsDistinct` there is no room for another. */
  lemma SensitiveNames()
    ensures |SensitiveFields()| == 13
    ensures forall name :: name in {
              "first_name", "last_name", "date_of_birth", "address", "city", "state", "postal_code", "country",
              "id_number", "tax_id", "phone_number", "bank_account_number", "bank_routing_number"
            } ==> Sensitive(Ascii(name))
  {
    assert forall i :: 0 <= i < |FIELD_NAMES| ==> SensitiveFields()[i] == Ascii(FIELD_NAMES[i]);
    assert forall name :: name in FIELD_NAMES ==> Sensitive(Ascii(name));
  }

  // ---- Fields ---------------------------------------------------------------------------

  function NormalizeString(c: Crypto, v: Json): Text {
    if v.Str? then v.s else c.jsonText(v)
  }

  function EncryptValue(c: Crypto, salt: Text, v: Json): Json {
    if v == Null || v == Str([]) then v else Str(c.enc(salt, NormalizeString(c, v)))
  }

  function DecryptValue(c: Crypto, v: Json): Json {
    if v.Str? && v.s != [] && c.dec(v.s).Some? then Str(c.dec(v.s).value) else v
  }

  /** Every entry whose key is in `keys` gets its encrypted value; the rest stay. `salts` is per field. */
  function EncryptEntries(c: Crypto, salts: Text -> Text, es: Payload, keys: seq<Text>): (r: Payload)
    ensures |r| == |es|
  {
    seq(|es|, i requires 0 <= i < |es| =>
      if es[i].key in keys then Entry(es[i].key, EncryptValue(c, salts(es[i].key), es[i].val)) else es[i])
  }

  function DecryptEntries(c: Crypto, es: Payload, keys: seq<Text>): (r: Payload)
    ensures |r| == |es|
  {
    seq(|es|, i requires 0 <= i < |es| =>
      if es[i].key in keys then Entry(es[i].key, DecryptValue(c, es[i].val)) else es[i])
  }

  /** The position of a key in a record, or its length when the record has no such key. */
  method FindKey(es: Payload, k: Text) returns (p: nat)
    ensures p <= |es| && (p < |es| ==> es[p].key == k)
    ensures forall i :: 0 <= i < p ==> es[i].key != k
  {
    p := 0;
    while p < |es| && es[p].key != k
      invariant p <= |es| && forall i :: 0 <= i < p ==> es[i].key != k
    {
      p := p + 1;
    }
  }

  /** One more field: only the entry at position `p`, if there is one, is affected. */
  lemma EncryptOneMore(c: Crypto, salts: Text -> Text, data: Payload, f: nat, p: nat)
    requires DistinctKeys(data) && f < |FIELD_NAMES| && p <= |data|
    requires if p < |data| then data[p].key == SensitiveFields()[f]
             else forall i :: 0 <= i < |data| ==> data[i].key != SensitiveFields()[f]
    ensures var fields := SensitiveFields();
            var r := EncryptEntries(c, salts, data, fields[..f]);
            && (p < |data| ==> r[p] == data[p])
            && EncryptEntries(c, salts, data, fields[..f + 1])
               == if p < |data| then r[p := Entry(data[p].key, EncryptValue(c, salts(data[p].key), data[p].val))] else r
  {
    var fields := SensitiveFields();
    forall i | 0 <= i < f ensures fields[i] != fields[f] {
      SensitiveFieldsDistinct(i, f);
    }
    assert fields[..f + 1] == fields[..f] + [fields[f]];
  }

  /** The loop over the sensitive fields, updating a copy of the record. */
  method EncryptSensitiveFields(c: Crypto, salts: Text -> Text, data: Payload) returns (r: Payload)
    requires DistinctKeys(data)
    ensures r == EncryptEntries(c, salts, data, SensitiveFields())
  {
    r := data;
    var fields := SensitiveFields();
    for f := 0 to |fields|
      invariant r == EncryptEntries(c, salts, data, fields[..f])
    {
      var p := FindKey(r, fields[f]);
      assert forall i :: 0 <= i < |data| ==> r[i].key == data[i].key;
      EncryptOneMore(c, salts, data, f, p);
      if p < |r| && r[p].val != Null && r[p].val != Str([]) {
        r := r[p := Entry(fields[f], Str(c.enc(salts(fields[f]), NormalizeString(c, r[p].val))))];
      }
    }
    assert fields[..|fields|] == fields;
  }

  lemma DecryptOneMore(c: Crypto, data: Payload, f: nat, p: nat)
    requires DistinctKeys(data) && f < |FIELD_NAMES| && p <= |data|
    requires if p < |data| then data[p].key == SensitiveFields()[f]
             else forall i :: 0 <= i < |data| ==> data[i].key != SensitiveFields()[f]
    ensures var fields := SensitiveFields();
            var r := DecryptEntries(c, data, fields[..f]);
            && (p < |data| ==> r[p] == data[p])
            && DecryptEntries(c, data, fields[..f + 1])
               == if p < |data| then r[p := Entry(data[p].key, DecryptValue(c, data[p].val))] else r
  {
    var fields := SensitiveFields();
    forall i | 0 <= i < f ensures fields[i] != fields[f] {
      SensitiveFieldsDistinct(i, f);
    }
    assert fields[..f + 1] == fields[..f] + [fields[f]];
  }

  method DecryptSensitiveFields(c: Crypto, data: Payload) returns (r: Payload)
    requires DistinctKeys(data)
    ensures r == DecryptEntries(c, data, SensitiveFields())
  {
    r := data;
    var fields := SensitiveFields();
    for f := 0 to |fields|
      invariant r == DecryptEntries(c, data, fields[..f])
    {
      var p := FindKey(r, fields[f]);
      assert forall i :: 0 <= i < |data| ==> r[i].key == data[i].key;
      DecryptOneMore(c, data, f, p);
      if p < |r| && r[p].val.Str? && r[p].val.s != [] {
        match c.dec(r[p].val.s)
        case Some(plain) => r := r[p := Entry(fields[f], Str(plain))];
        case None =>
      }
    }
    assert fields[..|fields|] == fields;
  }

  // ---- Whole payloads -------------------------------------------------------------------

  datatype Error = InvalidPayload | NoPayload | IntegrityFailed

  /** A payload is a record, or text that parses to one. */
  function ParsePayload(c: Crypto, v: Json): Result<Payload, Error> {
    match v
    case Obj(es) => Ok(es)
    case Str(t) =>
      var p := c.parse(t);
      if p.Some? && p.value.Obj? then Ok(p.value.entries) else Err(InvalidPayload)
    case _ => Err(InvalidPayload)
  }

  /** A record is taken as it is, whatever it holds; text is taken exactly when it parses to a record. */
  lemma ParsePayloadIff(c: Crypto, v: Json, es: Payload)
    ensures ParsePayload(c, v) == Ok(es) <==> v == Obj(es) || (v.Str? && c.parse(v.s) == Some(Obj(es)))
    ensures ParsePayload(c, v).Err? <==>
              !v.Obj? && (v.Str? ==> c.parse(v.s).None? || !c.parse(v.s).value.Obj?)
    ensures ParsePayload(c, v).Err? ==> ParsePayload(c, v).error == InvalidPayload
  {
  }

  function Checksum(c: Crypto, es: Payload): Text {
    c.hash(StableStringify(Obj(es)))
  }

  datatype Prepared = Prepared(plaintext: Payload, encrypted: Text, checksum: Text)

  function PrepareForStorage(c: Crypto, salts: Text -> Text, outerSalt: Text, v: Json): Result<Prepared, Error> {
    match ParsePayload(c, v)
    case Err(e) => Err(e)
    case Ok(es) =>
      Ok(Prepared(es, c.to(outerSalt, Obj(EncryptEntries(c, salts, es, SensitiveFields()))), Checksum(c, es)))
  }

  function TryDecryptStored(c: Crypto, t: Text): Option<Payload> {
    var v := c.from(t);
    if v.Some? && v.value.Obj? then Some(v.value.entries) else None
  }

  predicate VerifyEncrypted(c: Crypto, encrypted: Text, checksum: Text) {
    var outer := TryDecryptStored(c, encrypted);
    outer.Some? && Checksum(c, DecryptEntries(c, outer.value, SensitiveFields())) == checksum
  }

  /** What a caller can check beforehand: each sensitive field that is present is a string or null. */
  predicate SensitiveAreStrings(es: Payload) {
    forall i :: 0 <= i < |es| && Sensitive(es[i].key) ==> es[i].val.Str? || es[i].val.Null?
  }

  /** The value a sensitive field comes back as: unchanged if string or null, else its JSON text. */
  function Stringified(c: Crypto, v: Json): Json {
    if v.Null? then v else Str(NormalizeString(c, v))
  }

  lemma FieldRoundTrip(c: Crypto, salt: Text, v: Json)
    requires Lawful(c)
    ensures DecryptValue(c, EncryptValue(c, salt, v)) == Stringified(c, v)
    ensures Stringified(c, v) == v <==> v.Str? || v.Null?
  {
  }

  /** Decryption undoes encryption up to turning other values into their JSON text. */
  lemma PayloadRoundTrip(c: Crypto, salts: Text -> Text, es: Payload, i: nat)
    requires Lawful(c) && i < |es|
    ensures var back := DecryptEntries(c, EncryptEntries(c, salts, es, SensitiveFields()), SensitiveFields());
            back[i] == if Sensitive(es[i].key) then Entry(es[i].key, Stringified(c, es[i].val)) else es[i]
  {
    FieldRoundTrip(c, salts(es[i].key), es[i].val);
  }

  lemma EncryptionKeepsWellFormed(c: Crypto, salts: Text -> Text, es: Payload)
    requires WellFormed(Obj(es))
    ensures WellFormed(Obj(EncryptEntries(c, salts, es, SensitiveFields())))
  {
    var r := EncryptEntries(c, salts, es, SensitiveFields());
    assert forall i :: 0 <= i < |es| ==> r[i].key == es[i].key && WellFormed(r[i].val);
  }

  lemma DecryptionKeepsWellFormed(c: Crypto, es: Payload)
    requires WellFormed(Obj(es))
    ensures WellFormed(Obj(DecryptEntries(c, es, SensitiveFields())))
  {
    var r := DecryptEntries(c, es, SensitiveFields());
    assert forall i :: 0 <= i < |es| ==> r[i].key == es[i].key && WellFormed(r[i].val);
  }

  /**
   Exactly what decryption changes: a sensitive text that decrypts becomes its plain text, every other entry is
   left alone.
   */
  lemma DecryptedEntryIs(c: Crypto, es: Payload, i: nat, plain: Text)
    requires i < |es|
    ensures var r := DecryptEntries(c, es, SensitiveFields());
            && |r| == |es| && r[i].key == es[i].key
            && (Sensitive(es[i].key) && es[i].val.Str? && es[i].val.s != [] && c.dec(es[i].val.s) == Some(plain) ==>
                  r[i].val == Str(plain))
            && (!Sensitive(es[i].key) || !es[i].val.Str? || es[i].val.s == [] || c.dec(es[i].val.s) == None ==>
                  r[i] == es[i])
  {
  }

  /**
   Exactly what encryption changes: a sensitive value that is neither null nor the empty text; its cipher text
   decrypts to it.
   */
  lemma EncryptedEntryIs(c: Crypto, salts: Text -> Text, es: Payload, i: nat)
    requires Lawful(c) && i < |es|
    ensures var r := EncryptEntries(c, salts, es, SensitiveFields());
            && |r| == |es| && r[i].key == es[i].key
            && (Sensitive(es[i].key) && es[i].val != Null && es[i].val != Str([]) ==>
                  && r[i].val.Str? && r[i].val.s != []
                  && c.dec(r[i].val.s) == Some(if es[i].val.Str? then es[i].val.s else c.jsonText(es[i].val)))
            && (!Sensitive(es[i].key) || es[i].val == Null || es[i].val == Str([]) ==> r[i] == es[i])
  {
  }

  ghost predicate SameValues(es: Payload, fs: Payload)
    requires |es| == |fs|
  {
    forall i :: 0 <= i < |es| ==> NormOf(es[i].val) == NormOf(fs[i].val)
  }

  lemma SameValuesCons(es: Payload, fs: Payload)
    requires |es| == |fs| && es != []
    ensures SameValues(es, fs) <==> NormOf(es[0].val) == NormOf(fs[0].val) && SameValues(es[1..], fs[1..])
  {
    assert forall i :: 1 <= i < |es| ==> es[i] == es[1..][i - 1] && fs[i] == fs[1..][i - 1];
    assert forall i :: 0 <= i < |es[1..]| ==> es[i + 1] == es[1..][i] && fs[i + 1] == fs[1..][i];
  }

  /** Records with the same keys in the same places mean the same only if each value does. */
  lemma {:induction false} NormByPosition(es: Payload, fs: Payload)
    requires DistinctKeys(es) && |es| == |fs| && forall i :: 0 <= i < |es| ==> es[i].key == fs[i].key
    ensures NormEntries(es) == NormEntries(fs) <==> SameValues(es, fs)
  {
    if es != [] {
      var k := es[0].key;
      assert forall i :: 1 <= i < |es| ==> es[i] == es[1..][i - 1] && fs[i] == fs[1..][i - 1];
      NormByPosition(es[1..], fs[1..]);
      NormKeys(es[1..], k);
      NormKeys(fs[1..], k);
      assert NormEntries(es[1..]) == NormEntries(es) - {k};
      assert NormEntries(fs[1..]) == NormEntries(fs) - {k};
      assert NormEntries(es)[k] == NormOf(es[0].val) && NormEntries(fs)[k] == NormOf(fs[0].val);
      SameValuesCons(es, fs);
    }
  }

  /**
   The checksum of what comes back equals the payload's own checksum exactly when every
   sensitive field was a string or null.
   */
  lemma ChecksumSurvivesIff(c: Crypto, salts: Text -> Text, es: Payload)
    requires Lawful(c) && WellFormed(Obj(es))
    ensures var back := DecryptEntries(c, EncryptEntries(c, salts, es, SensitiveFields()), SensitiveFields());
            Checksum(c, back) == Checksum(c, es) <==> SensitiveAreStrings(es)
  {
    var back := DecryptEntries(c, EncryptEntries(c, salts, es, SensitiveFields()), SensitiveFields());
    forall i | 0 <= i < |es|
      ensures back[i].key == es[i].key && WellFormed(back[i].val)
      ensures NormOf(back[i].val) == NormOf(es[i].val) <==> (Sensitive(es[i].key) ==> es[i].val.Str? || es[i].val.Null?)
    {
      PayloadRoundTrip(c, salts, es, i);
      FieldRoundTrip(c, salts(es[i].key), es[i].val);
    }
    StableStringifyIsCanonical(Obj(back), Obj(es));
    NormByPosition(es, back);
  }

  /** A prepared payload passes its own verification if and only if its sensitive fields are strings or null. */
  lemma PreparedVerifiesIff(c: Crypto, salts: Text -> Text, outerSalt: Text, v: Json)
    requires Lawful(c) && WellFormed(v)
    ensures match PrepareForStorage(c, salts, outerSalt, v)
            case Err(_) => ParsePayload(c, v).Err?
            case Ok(p) =>
              && p.encrypted != [] && p.checksum != []
              && (VerifyEncrypted(c, p.encrypted, p.checksum) <==> SensitiveAreStrings(p.plaintext))
  {
    match PrepareForStorage(c, salts, outerSalt, v)
    case Err(_) =>
    case Ok(p) =>
      EncryptionKeepsWellFormed(c, salts, p.plaintext);
      ChecksumSurvivesIff(c, salts, p.plaintext);
  }

  /** The record that a stored payload holds, if it decrypts to one. */
  function StoredRecord(c: Crypto, stored: Text): Option<Payload> {
    match c.from(stored)
    case Some(Obj(es)) => Some(DecryptEntries(c, es, SensitiveFields()))
    case _ => None
  }

  /**
   A stored payload passes against the checksum of a record if and only if it decrypts to a record that means the
   same.
   */
  lemma VerifiesIff(c: Crypto, stored: Text, es: Payload)
    requires Lawful(c) && WellFormed(Obj(es))
    ensures VerifyEncrypted(c, stored, Checksum(c, es))
            <==> StoredRecord(c, stored).Some? && NormEntries(StoredRecord(c, stored).value) == NormEntries(es)
  {
    if StoredRecord(c, stored).Some? {
      DecryptionKeepsWellFormed(c, c.from(stored).value.entries);
      StableStringifyIsCanonical(Obj(StoredRecord(c, stored).value), Obj(es));
    }
  }

  // ---- One row of the migration ---------------------------------------------------------

  datatype Format = Plaintext | Encrypted

  datatype PreparedRow = PreparedRow(
    originalValue: Text, originalVersion: int, format: Format, checksum: Option<Text>, migratedValue: Option<Text>)

  /** Empty text counts as no payload, as in the source's truthiness test. */
  predicate NoText(t: Option<Text>) {
    t.None? || t.value == []
  }

  function PrepareRow(c: Crypto, salts: Text -> Text, outerSalt: Text, payload: Option<Text>, version: Option<int>)
    : Result<PreparedRow, Error>
  {
    if NoText(payload) then Err(NoPayload)
    else if TryDecryptStored(c, payload.value).Some? then
      Ok(PreparedRow(payload.value, if version.Some? then version.value else 1, Encrypted, None, None))
    else
      match PrepareForStorage(c, salts, outerSalt, Str(payload.value))
      case Err(e) => Err(e)
      case Ok(p) =>
        if VerifyEncrypted(c, p.encrypted, p.checksum) then
          Ok(PreparedRow(payload.value, if version.Some? then version.value else 0, Plaintext,
                         Some(p.checksum), Some(p.encrypted)))
        else Err(IntegrityFailed)
  }

  /**
   Exactly which rows are accepted: already encrypted ones, and text of a JSON object whose
   sensitive fields are strings or null. The rows refused for integrity are the other objects.
   */
  lemma PrepareRowAcceptsIff(
      c: Crypto, salts: Text -> Text, outerSalt: Text, payload: Option<Text>, version: Option<int>)
    requires Lawful(c)
    ensures var r := PrepareRow(c, salts, outerSalt, payload, version);
            && (r == Err(NoPayload) <==> NoText(payload))
            && (r.Ok? && r.value.format.Encrypted? <==> !NoText(payload) && TryDecryptStored(c, payload.value).Some?)
            && (r.Ok? && r.value.format.Plaintext? <==>
                  !NoText(payload) && TryDecryptStored(c, payload.value).None?
                  && ParsePayload(c, Str(payload.value)).Ok?
                  && SensitiveAreStrings(ParsePayload(c, Str(payload.value)).value))
            && (r == Err(IntegrityFailed) <==>
                  !NoText(payload) && TryDecryptStored(c, payload.value).None?
                  && ParsePayload(c, Str(payload.value)).Ok?
                  && !SensitiveAreStrings(ParsePayload(c, Str(payload.value)).value))
  {
    if !NoText(payload) {
      PreparedVerifiesIff(c, salts, outerSalt, Str(payload.value));
    }
  }

  /** An accepted plaintext row: its migrated value passes against the checksum of the original. */
  lemma AcceptedRowIsSound(c: Crypto, salts: Text -> Text, outerSalt: Text, payload: Option<Text>, version: Option<int>)
    requires Lawful(c) && PrepareRow(c, salts, outerSalt, payload, version).Ok?
    ensures var r := PrepareRow(c, salts, outerSalt, payload, version).value;
            && payload == Some(r.originalValue) && r.originalValue != []
            && (version.Some? ==> r.originalVersion == version.value)
            && (version.None? ==> r.originalVersion == if r.format.Encrypted? then 1 else 0)
            && (r.format.Encrypted? <==> TryDecryptStored(c, r.originalValue).Some?)
            && (r.format.Encrypted? ==> r.checksum == None && r.migratedValue == None)
            && (r.format.Plaintext? ==>
                  && ParsePayload(c, Str(r.originalValue)).Ok?
                  && r.checksum == Some(Checksum(c, ParsePayload(c, Str(r.originalValue)).value))
                  && r.checksum.value != []
                  && r.migratedValue.Some? && r.migratedValue.value != []
                  && VerifyEncrypted(c, r.migratedValue.value, r.checksum.value))
  {
    if TryDecryptStored(c, payload.value).None? {
      EncryptionKeepsWellFormed(c, salts, ParsePayload(c, Str(payload.value)).value);
    }
  }

  // ---- The batch size argument ----------------------------------------------------------

  const DEFAULT_BATCH_SIZE := 100

  /** `parsed` is what `Number` makes of the argument, if that is an integer. */
  function ParseBatchSize(parsed: Option<int>, fallback: int): (r: int)
    ensures r == fallback || (parsed == Some(r) && r > 0)
    ensures parsed.Some? && parsed.value > 0 ==> r == parsed.value
    ensures parsed.None? || parsed.value <= 0 ==> r == fallback
  {
    if parsed.None? || parsed.value <= 0 then fallback else parsed.value
  }

  /** With the script's own fallback the batch size is always positive, as the batch loops need. */
  lemma BatchSizeIsPositive(parsed: Option<int>)
    ensures ParseBatchSize(parsed, DEFAULT_BATCH_SIZE) > 0
    ensures ParseBatchSize(parsed, DEFAULT_BATCH_SIZE) != 100 ==> parsed.Some?
  {
  }
}
