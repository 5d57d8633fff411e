/** The append-only file of signed anchors and manifest pins: what a locked append
    does to it, what every sequence of appends keeps, and what a cut file shows. */
module AnchorSink {
  import opened Common
  import opened Jsonl
  import HashChain

  /** A sink record. `Unknown` stands for any JSON object of another shape. */
  datatype Record =
    | Anchor(chainId: string, anchorId: string, seqNo: int, rowHash: string, signed: Signed)
    | Pin(chainId: string, pinId: string, manifestId: string, manifestDigest: string, signed: Signed)
    | Unknown(text: string)

  /** The fields both record types carry; `createdAt` counts microseconds, and is None when the
      instant does not parse. */
  datatype Signed = Signed(
    sinkId: string, createdAt: Option<int>, keyId: string, root: string, signature: string)

  /** The foreign functions of a sink: its canonical codec, the record digest, and
      whether a record's signature verifies under the key its root fingerprint names. */
  datatype SinkEnv = SinkEnv(
    codec: Codec<Record>, digest: Bytes -> string, signatureOk: Record -> bool)
  {
    ghost predicate Valid() { codec.Valid() }
  }

  function RecordDigest(env: SinkEnv, r: Record): string {
    env.digest(env.codec.encode(r))
  }

  // -- Record validation -----------------------------------------------------------

  predicate IsToken(prefix: string, hexDigits: nat, s: string) {
    && |s| == |prefix| + hexDigits && prefix <= s
    && forall i :: |prefix| <= i < |s| ==> HashChain.IsHexDigit(s[i])
  }

  /** Whom a verifier trusts: one sink, one chain, and the pinned root fingerprints. */
  datatype Trust = Trust(sinkId: string, chainId: string, roots: set<string>)

  predicate SignedOk(env: SinkEnv, trust: Trust, r: Record)
    requires !r.Unknown?
  {
    && r.chainId == trust.chainId && IsToken("chain_", 32, trust.chainId)
    && r.signed.sinkId == trust.sinkId && r.signed.createdAt.Some?
    && r.signed.root in trust.roots && r.signed.keyId != ""
    && env.signatureOk(r)
  }

  predicate RecordOk(env: SinkEnv, trust: Trust, r: Record) {
    match r
    case Anchor(_, id, seqNo, rowHash, _) =>
      SignedOk(env, trust, r) && IsToken("anc_", 24, id) && seqNo > 0 && HashChain.IsDigest(rowHash)
    case Pin(_, id, manifest, digest, _) =>
      && SignedOk(env, trust, r) && IsToken("pin_", 24, id)
      && IsToken("sct_", 24, manifest) && IsToken("sha256:", 64, digest)
    case Unknown(_) => false
  }

  /** All records are valid and no pin or manifest id occurs twice. */
  ghost predicate SinkValid(env: SinkEnv, trust: Trust, records: seq<Record>) {
    && (forall i :: 0 <= i < |records| ==> RecordOk(env, trust, records[i]))
    && (forall i, j :: 0 <= i < j < |records| && records[i].Pin? && records[j].Pin? ==>
          records[i].pinId != records[j].pinId && records[i].manifestId != records[j].manifestId)
  }

  /** A record of this chain and sink whose signature verifies under a pinned root. */
  predicate Authentic(env: SinkEnv, trust: Trust, r: Record) {
    && !r.Unknown? && env.signatureOk(r) && r.signed.root in trust.roots
    && r.chainId == trust.chainId && r.signed.sinkId == trust.sinkId
  }

  /** Some lower-case hexadecimal digits behind a prefix, and nothing else. */
  ghost predicate HexBehind(prefix: string, digits: nat, s: string) {
    exists hex :: s == prefix + hex && |hex| == digits && forall c :: c in hex ==> c in "0123456789abcdef"
  }

  /** A record with which nothing is wrong. */
  ghost predicate Sound(env: SinkEnv, trust: Trust, r: Record) {
    && Authentic(env, trust, r) && HexBehind("chain_", 32, r.chainId)
    && r.signed.createdAt.Some? && |r.signed.keyId| > 0
    && (r.Anchor? ==> HexBehind("anc_", 24, r.anchorId) && r.seqNo >= 1 && HexBehind("", 64, r.rowHash))
    && (r.Pin? ==>
          HexBehind("pin_", 24, r.pinId) && HexBehind("sct_", 24, r.manifestId) && HexBehind("sha256:", 64, r.manifestDigest))
  }

  lemma TokenIsHex(prefix: string, digits: nat, s: string)
    ensures IsToken(prefix, digits, s) <==> HexBehind(prefix, digits, s)
  {
    if IsToken(prefix, digits, s) {
      var hex := s[|prefix|..];
      assert s == prefix + hex;
      forall c | c in hex ensures c in "0123456789abcdef" {
        var i :| 0 <= i < |hex| && hex[i] == c;
        assert HashChain.IsHexDigit(s[|prefix| + i]);
        HexDigits(c);
      }
    } else if HexBehind(prefix, digits, s) {
      var hex :| s == prefix + hex && |hex| == digits && forall c :: c in hex ==> c in "0123456789abcdef";
      forall i | |prefix| <= i < |s| ensures HashChain.IsHexDigit(s[i]) {
        assert s[i] == hex[i - |prefix|] && s[i] in hex;
        HexDigits(s[i]);
      }
    }
  }

  lemma HexDigits(c: char)
    ensures HashChain.IsHexDigit(c) <==> c in "0123456789abcdef"
  {
    var all := "0123456789abcdef";
    if '0' <= c <= '9' { assert all[c as int - '0' as int] == c; }
    if 'a' <= c <= 'f' { assert all[10 + (c as int - 'a' as int)] == c; }
  }

  lemma RecordOkIffSound(env: SinkEnv, trust: Trust, r: Record)
    ensures RecordOk(env, trust, r) <==> Sound(env, trust, r)
  {
    TokenIsHex("chain_", 32, trust.chainId);
    if r.Anchor? {
      TokenIsHex("anc_", 24, r.anchorId);
      TokenIsHex("", 64, r.rowHash);
    } else if r.Pin? {
      TokenIsHex("pin_", 24, r.pinId);
      TokenIsHex("sct_", 24, r.manifestId);
      TokenIsHex("sha256:", 64, r.manifestDigest);
    }
  }

  /** A sink is accepted exactly when nothing is wrong with any record and no pin or manifest id
      repeats: one badly signed record refuses it. */
  lemma ValidSinkIff(env: SinkEnv, trust: Trust, records: seq<Record>)
    ensures SinkValid(env, trust, records) <==>
      && (forall r :: r in records ==> Sound(env, trust, r))
      && (forall i, j :: 0 <= i < j < |records| && records[i].Pin? && records[j].Pin? ==>
            records[i].pinId != records[j].pinId && records[i].manifestId != records[j].manifestId)
  {
    forall r | r in records ensures RecordOk(env, trust, r) <==> Sound(env, trust, r) { RecordOkIffSound(env, trust, r); }
    if forall r :: r in records ==> Sound(env, trust, r) {
      forall i | 0 <= i < |records| ensures RecordOk(env, trust, records[i]) { assert records[i] in records; }
    }
  }

  method ValidateSinkRecords(env: SinkEnv, trust: Trust, records: seq<Record>) returns (ok: bool)
    ensures ok <==> SinkValid(env, trust, records)
    ensures ok ==> forall r :: r in records ==> Authentic(env, trust, r)
  {
    var pinIds: set<string>, manifestIds: set<string> := {}, {};
    for i := 0 to |records|
      invariant SinkValid(env, trust, records[..i])
      invariant pinIds == set k | 0 <= k < i && records[k].Pin? :: records[k].pinId
      invariant manifestIds == set k | 0 <= k < i && records[k].Pin? :: records[k].manifestId
    {
      var r := records[i];
      if !RecordOk(env, trust, r) {
        return false;
      }
      if r.Pin? {
        if r.pinId in pinIds || r.manifestId in manifestIds {
          return false;
        }
        pinIds, manifestIds := pinIds + {r.pinId}, manifestIds + {r.manifestId};
      }
    }
    assert records[..|records|] == records;
    return true;
  }

  // -- Appending ---------------------------------------------------------------------

  function Anchors(records: seq<Record>): seq<Record> {
    Filter(records, (r: Record) => r.Anchor?)
  }

  function LatestAnchor(records: seq<Record>): (r: Option<Record>)
    ensures r.Some? ==> r.value.Anchor?
  {
    if records == [] then None
    else if records[|records| - 1].Anchor? then Some(records[|records| - 1])
    else LatestAnchor(records[..|records| - 1])
  }

  function LatestPin(records: seq<Record>, manifestId: string): (r: Option<Record>)
    ensures r.Some? ==> r.value.Pin? && r.value.manifestId == manifestId
  {
    if records == [] then None
    else
      var r := records[|records| - 1];
      if r.Pin? && r.manifestId == manifestId then Some(r)
      else LatestPin(records[..|records| - 1], manifestId)
  }

  datatype SinkError = PartialRecord | Malformed | ReorderedAnchor | ConflictingAnchor | ConflictingPin

  /** The stored record an append repeats, None when it is new, or a refusal. */
  function IdempotentExisting(existing: seq<Record>, incoming: Record): Result<Option<Record>, SinkError> {
    match incoming
    case Anchor(_, _, seqNo, rowHash, _) =>
      var latest := LatestAnchor(existing);
      if latest.None? then Ok(None)
      else if seqNo < latest.value.seqNo then Err(ReorderedAnchor)
      else if seqNo > latest.value.seqNo then Ok(None)
      else if rowHash != latest.value.rowHash then Err(ConflictingAnchor)
      else Ok(latest)
    case Pin(_, _, manifestId, digest, _) =>
      var pin := LatestPin(existing, manifestId);
      if pin.None? then Ok(None)
      else if pin.value.manifestDigest != digest then Err(ConflictingPin)
      else Ok(pin)
    case Unknown(_) => Ok(None)
  }

  lemma {:induction false} LatestAnchorIsStored(records: seq<Record>)
    ensures match LatestAnchor(records)
            case None => forall i :: 0 <= i < |records| ==> !records[i].Anchor?
            case Some(r) => exists i :: (
              0 <= i < |records| && records[i] == r
              && forall j :: i < j < |records| ==> !records[j].Anchor?)
  {
    if records != [] && !records[|records| - 1].Anchor? {
      LatestAnchorIsStored(records[..|records| - 1]);
    }
  }

  lemma {:induction false} LatestPinIsStored(records: seq<Record>, manifestId: string)
    ensures match LatestPin(records, manifestId)
            case None => forall i :: 0 <= i < |records| && records[i].Pin? ==> records[i].manifestId != manifestId
            case Some(r) => r in records
  {
    if records != [] { LatestPinIsStored(records[..|records| - 1], manifestId); }
  }

  /** The locked file. One call of `Append` is one critical section. */
  class LocalFileAnchorSink {
    const env: SinkEnv
    var file: Bytes

    constructor (env: SinkEnv)
      ensures this.env == env && file == []
    {
      this.env := env;
      file := [];
    }

    /** The records after one append, and what the caller is told. */
    static function Appended(records: seq<Record>, incoming: Record): (seq<Record>, Result<Record, SinkError>) {
      match IdempotentExisting(records, incoming)
      case Err(e) => (records, Err(e))
      case Ok(Some(stored)) => (records, Ok(stored))
      case Ok(None) => (records + [incoming], Ok(incoming))
    }

    method Append(incoming: Record) returns (result: Result<Record, SinkError>)
      requires env.Valid()
      modifies this
      ensures match ReadRecords(env.codec, old(file))
              case None => file == old(file) && result.Err?
              case Some(before) =>
                && ReadRecords(env.codec, file) == Some(Appended(before, incoming).0)
                && result == Appended(before, incoming).1
                && old(file) <= file
                && (file != old(file) ==> file == old(file) + Line(env.codec, incoming))
      ensures result.Err? ==> file == old(file)
    {
      assert SplitLines([]) == [];
      var existing := [];
      if file != [] {
        if file[|file| - 1] != LINE_FEED {
          return Err(PartialRecord);
        }
        var parsed := ParseRecordLines(env.codec, file);
        if parsed.None? {
          return Err(Malformed);
        }
        existing := parsed.value;
        var duplicate := IdempotentExisting(existing, incoming);
        if duplicate.Err? {
          return Err(duplicate.error);
        }
        if duplicate.value.Some? {
          return Ok(duplicate.value.value);
        }
      }
      ReadAppend(env.codec, file, incoming);
      file := file + Line(env.codec, incoming);
      return Ok(incoming);
    }
  }

  // -- What every sequence of appends keeps ------------------------------------------

  /** Anchors climb strictly, each manifest is pinned once, and nothing else is stored. */
  ghost predicate Orderly(records: seq<Record>) {
    && (forall i :: 0 <= i < |records| ==> !records[i].Unknown?)
    && (forall i, j :: 0 <= i < j < |records| && records[i].Anchor? && records[j].Anchor? ==>
          records[i].seqNo < records[j].seqNo)
    && (forall i, j :: 0 <= i < j < |records| && records[i].Pin? && records[j].Pin? ==>
          records[i].manifestId != records[j].manifestId)
  }

  lemma AppendStaysOrderly(records: seq<Record>, incoming: Record)
    requires Orderly(records) && !incoming.Unknown?
    ensures Orderly(LocalFileAnchorSink.Appended(records, incoming).0)
  {
    LatestAnchorIsStored(records);
    if incoming.Pin? { LatestPinIsStored(records, incoming.manifestId); }
  }

  /** The records after a run of appends, in the order their locks were granted. */
  function AppendAll(records: seq<Record>, incoming: seq<Record>): seq<Record>
    decreases |incoming|
  {
    if incoming == [] then records
    else AppendAll(LocalFileAnchorSink.Appended(records, incoming[0]).0, incoming[1..])
  }

  /** Under any interleaving the sink only grows, by whole records, and stays orderly. */
  lemma {:induction false} EveryRunGrowsOrderly(records: seq<Record>, incoming: seq<Record>)
    requires Orderly(records) && forall i :: 0 <= i < |incoming| ==> !incoming[i].Unknown?
    ensures records <= AppendAll(records, incoming) && Orderly(AppendAll(records, incoming))
    ensures forall i :: |records| <= i < |AppendAll(records, incoming)| ==> AppendAll(records, incoming)[i] in incoming
    decreases |incoming|
  {
    if incoming != [] {
      var next := LocalFileAnchorSink.Appended(records, incoming[0]).0;
      AppendStaysOrderly(records, incoming[0]);
      EveryRunGrowsOrderly(next, incoming[1..]);
    }
  }

  /** A pin appended again later, whatever came between, returns the stored pin and
      writes nothing; with another digest it is refused. */
  lemma RepeatedPinReturnsStored(records: seq<Record>, pin: Record, between: seq<Record>, again: Record)
    requires Orderly(records) && pin.Pin? && pin in records
    requires forall i :: 0 <= i < |between| ==> !between[i].Unknown?
    requires again.Pin? && again.manifestId == pin.manifestId
    ensures var later := AppendAll(records, between);
      LocalFileAnchorSink.Appended(later, again) ==
        (later, if again.manifestDigest == pin.manifestDigest then Ok(pin) else Err(ConflictingPin))
  {
    EveryRunGrowsOrderly(records, between);
    var later := AppendAll(records, between);
    LatestPinIsStored(later, pin.manifestId);
    assert pin in later;
  }

  /** An anchor of the head that is already anchored returns the stored anchor. */
  lemma RepeatedAnchorReturnsStored(records: seq<Record>, i: nat, again: Record)
    requires Orderly(records) && i < |records| && records[i].Anchor? && again.Anchor?
    requires again.seqNo == records[i].seqNo
    ensures LocalFileAnchorSink.Appended(records, again) == (records,
      if exists j :: i < j < |records| && records[j].Anchor? then Err(ReorderedAnchor)
      else if again.rowHash == records[i].rowHash then Ok(records[i]) else Err(ConflictingAnchor))
  {
    LatestAnchorIsStored(records);
  }

  // -- Cut files --------------------------------------------------------------------

  /** The last-record check of the verifier against the head recorded in the database. */
  predicate HeadMatches(env: SinkEnv, records: seq<Record>, head: Option<string>) {
    records != [] && head == Some(RecordDigest(env, records[|records| - 1]))
  }

  ghost predicate DigestCollides(env: SinkEnv, pair: (Bytes, Bytes)) {
    pair.0 != pair.1 && env.digest(pair.0) == env.digest(pair.1)
  }

  /** Two sinks end in records whose different encodings share a digest. */
  ghost predicate LastRecordsCollide(env: SinkEnv, a: seq<Record>, b: seq<Record>) {
    a != [] && b != [] &&
    DigestCollides(env, (env.codec.encode(a[|a| - 1]), env.codec.encode(b[|b| - 1])))
  }

  function RecordedHead(env: SinkEnv, records: seq<Record>): Option<string> {
    if records == [] then None else Some(RecordDigest(env, records[|records| - 1]))
  }

  /** A proper prefix of an orderly sink never ends in the record the full sink ends in,
      so the recorded head refuses it unless two encodings share a digest. */
  lemma RollbackIsCaught(env: SinkEnv, records: seq<Record>, kept: seq<Record>)
    requires env.Valid() && Orderly(records) && kept < records
    requires HeadMatches(env, kept, RecordedHead(env, records))
    ensures LastRecordsCollide(env, kept, records)
  {
    var a, b := kept[|kept| - 1], records[|records| - 1];
    assert a == records[|kept| - 1];
    assert a != b;
    assert env.codec.decode(env.codec.encode(a)) != env.codec.decode(env.codec.encode(b));
  }

  /** The records a cut file still reads as, if any, are a proper prefix that the recorded head
      refuses (an empty sink included), or the digest collides on two exhibited encodings. */
  ghost predicate CutNoticed(env: SinkEnv, records: seq<Record>, read: Option<seq<Record>>) {
    read.Some? ==>
      && read.value < records
      && (HeadMatches(env, read.value, RecordedHead(env, records)) ==> LastRecordsCollide(env, read.value, records))
  }

  /** Cutting the file of an orderly sink at any byte below its end is noticed. */
  lemma CutIsNoticed(env: SinkEnv, records: seq<Record>, cut: nat)
    requires env.Valid() && Orderly(records) && cut < |JoinLines(env.codec, records)|
    ensures CutNoticed(env, records, ReadRecords(env.codec, JoinLines(env.codec, records)[..cut]))
  {
    CutReadsPrefix(env.codec, records, cut);
    var read := ReadRecords(env.codec, JoinLines(env.codec, records)[..cut]);
    if read.Some? {
      ShorterFileFewerRecords(env, records, read.value, cut);
      PrefixIsNoticed(env, records, read.value);
    }
  }

  lemma ShorterFileFewerRecords(env: SinkEnv, records: seq<Record>, kept: seq<Record>, cut: nat)
    requires kept <= records && |JoinLines(env.codec, kept)| == cut < |JoinLines(env.codec, records)|
    ensures kept < records
  {
    assert |kept| == |records| ==> kept == records;
  }

  lemma PrefixIsNoticed(env: SinkEnv, records: seq<Record>, kept: seq<Record>)
    requires env.Valid() && Orderly(records) && kept < records
    ensures CutNoticed(env, records, Some(kept))
  {
    if HeadMatches(env, kept, RecordedHead(env, records)) { RollbackIsCaught(env, records, kept); }
  }
}
