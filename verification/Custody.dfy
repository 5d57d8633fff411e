/** Envelopes of per-subject keys, and the custodians that wrap and unwrap them. */
module Custody {
  import opened Common

  type Bytes = string

  /** A stored key envelope: raw key bytes, or a wrapped key that names its root. */
  datatype Envelope = Raw(key: Bytes) | Wrapped(keyId: string, sealedKey: Bytes)

  /** The two custodians. A Kms custodian wraps under `root` and stamps `keyId`. */
  datatype Custodian = RawLocal | Kms(root: Bytes, keyId: string)

  /** Key wrap, content encryption and the byte form of an envelope. Only the inverse
      laws are assumed. `rootOf` is the deployment's registry: which root a key id names. */
  datatype Crypto = Crypto(
    seal: (Bytes, string, string, Bytes) -> Bytes,
    open: (Bytes, string, string, Bytes) -> Option<Bytes>,
    encrypt: (string, Bytes) -> Bytes,
    decrypt: (Bytes, Bytes) -> Option<string>,
    bytesOf: Envelope -> Bytes,
    rootOf: string -> Bytes)
  {
    ghost predicate Valid() {
      && (forall r, t, s, k :: Wrappable(k) ==> open(r, t, s, seal(r, t, s, k)) == Some(k))
      && (forall text, k :: decrypt(encrypt(text, k), k) == Some(text))
      && (forall k :: bytesOf(Raw(k)) == k)
    }
  }

  /** Key wrap takes whole blocks of eight bytes, two at least. */
  predicate Wrappable(key: Bytes) {
    |key| >= 16 && |key| % 8 == 0
  }

  /** None stands for the exception of a key that cannot be wrapped. */
  function Wrap(crypto: Crypto, c: Custodian, t: string, s: string, key: Bytes): Option<Envelope> {
    match c
    case RawLocal => Some(Raw(key))
    case Kms(root, keyId) => if Wrappable(key) then Some(Wrapped(keyId, crypto.seal(root, t, s, key))) else None
  }

  const KEY_LENGTH := 32

  /** The part of a key that the cipher uses. */
  function CipherKey(key: Bytes): Bytes {
    if |key| <= KEY_LENGTH then key else key[..KEY_LENGTH]
  }

  const BEFORE_ID: Bytes := "hwkw1:{\"alg\":\"HKDF-SHA256+A256KW\",\"key_id\":\""
  const AFTER_ID: Bytes := "\",\"v\":1,\"wrapped_dek\":\""
  const AFTER_KEY: Bytes := "\"}"

  /** The stored bytes of a wrapped key, for key ids that JSON writes as they are. */
  function EnvelopeBytes(keyId: string, sealedKey: Bytes): Bytes {
    BEFORE_ID + keyId + AFTER_ID + sealedKey + AFTER_KEY
  }

  lemma EnvelopeLength(keyId: string, sealedKey: Bytes)
    ensures |EnvelopeBytes(keyId, sealedKey)| == 69 + |keyId| + |sealedKey|
  {
    assert |BEFORE_ID| == 44;
    assert |AFTER_ID| == 23;
    assert |AFTER_KEY| == 2;
  }

  /** As cipher keys all envelopes are one: they begin alike. */
  lemma EnvelopeCipherKey(keyId: string, sealedKey: Bytes)
    ensures CipherKey(EnvelopeBytes(keyId, sealedKey)) == BEFORE_ID[..KEY_LENGTH]
  {
    EnvelopeLength(keyId, sealedKey);
    assert |BEFORE_ID| == 44;
  }

  /** A wrapped 32-byte key is 40 bytes, 54 characters when encoded: the envelope itself has the
      length of a key that can be wrapped exactly for key ids of one length in eight. */
  lemma EnvelopeWrappableIff(keyId: string, sealedKey: Bytes)
    requires |sealedKey| == 54
    ensures |EnvelopeBytes(keyId, sealedKey)| == 123 + |keyId|
    ensures Wrappable(EnvelopeBytes(keyId, sealedKey)) <==> |keyId| % 8 == 5
  {
    EnvelopeLength(keyId, sealedKey);
  }

  /** None stands for the exception: a foreign key id, or a failed integrity check. The raw
      custodian hands back the bytes it is given, whatever they are. */
  function Unwrap(crypto: Crypto, c: Custodian, t: string, s: string, e: Envelope): Option<Bytes> {
    match c
    case RawLocal => Some(crypto.bytesOf(e))
    case Kms(root, keyId) =>
      if e.Raw? then Some(e.key)
      else if e.keyId != keyId then None
      else crypto.open(root, t, s, e.sealedKey)
  }

  /** The key an envelope holds, opened with the root its key id names. */
  function Opens(crypto: Crypto, t: string, s: string, e: Envelope): Option<Bytes> {
    match e
    case Raw(k) => Some(k)
    case Wrapped(keyId, x) => crypto.open(crypto.rootOf(keyId), t, s, x)
  }

  /** The custodian holds the root its key id names. */
  predicate WellKeyed(crypto: Crypto, c: Custodian) {
    c.Kms? ==> c.root == crypto.rootOf(c.keyId)
  }

  lemma WrapOpens(crypto: Crypto, c: Custodian, t: string, s: string, key: Bytes)
    requires crypto.Valid() && WellKeyed(crypto, c)
    ensures var e := Wrap(crypto, c, t, s, key);
      && (e.Some? <==> c.RawLocal? || (|key| >= 16 && |key| % 8 == 0)) && (e.Some? ==> Opens(crypto, t, s, e.value) == Some(key))
  {
  }

  /** A raw custodian facing a wrapped envelope: the one case where unwrapping succeeds
      with something that need not be the key. */
  predicate Mismatched(c: Custodian, e: Envelope) {
    c.RawLocal? && e.Wrapped?
  }

  /** Unwrapping returns the key or fails, unless the custodian is mismatched; then it
      returns the envelope's own bytes, so it is right only if those are the key. */
  lemma UnwrapReturnsTheKey(crypto: Crypto, c: Custodian, t: string, s: string, e: Envelope)
    requires crypto.Valid() && WellKeyed(crypto, c)
    ensures !Mismatched(c, e) ==>
      Unwrap(crypto, c, t, s, e).None? || Unwrap(crypto, c, t, s, e) == Opens(crypto, t, s, e)
    ensures Mismatched(c, e) ==> Unwrap(crypto, c, t, s, e) == Some(crypto.bytesOf(e))
  {
  }
}
