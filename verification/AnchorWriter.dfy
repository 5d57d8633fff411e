/** The writer of anchors and manifest pins: what it checks before it writes, what it reads
    back, how it backs off, and what happens when two writers share one sink. */
module AnchorWriter {
  import opened Common
  import opened Jsonl
  import opened HashChain
  import opened AnchorSink
  import opened AnchorVerify

  /** The sink's records and the digest the database has recorded for the last of them. */
  datatype Shared = Shared(records: seq<Record>, head: Option<string>)

  predicate InStep(env: SinkEnv, s: Shared) {
    HeadMatches(env, s.records, s.head)
  }

  /** Before a write, a sink that holds anything must end in the recorded record. */
  predicate MayWrite(env: SinkEnv, s: Shared) {
    s.records == [] || InStep(env, s)
  }

  datatype WriteError =
    | BadManifestId | BadDigest | UnreadableSink | SinkRolledBack | SinkInvalid | OtherDigest | ReadBackFailed
    | EmptyChain | Refused(error: SinkError)

  datatype PinReceipt = PinReceipt(pinId: string, wrote: bool)

  function PinsOf(records: seq<Record>, manifestId: string): seq<Record> {
    Filter(records, (r: Record) => r.Pin? && r.manifestId == manifestId)
  }

  /** What a manifest id resolves to: its one pin, in a valid sink that has not been rolled back. */
  ghost function Resolved(env: SinkEnv, trust: Trust, s: Shared, manifestId: string): (d: Option<string>) {
    var pins := PinsOf(s.records, manifestId);
    if !SinkValid(env, trust, s.records) || !InStep(env, s) || |pins| != 1 || !pins[0].Pin? then None
    else Some(pins[0].manifestDigest)
  }

  /** Everything pinning does, given the signed record it would append. */
  ghost function Pinned(env: SinkEnv, trust: Trust, s: Shared, record: Record): (Shared, Result<PinReceipt, WriteError>)
    requires record.Pin?
  {
    if !IsToken("sct_", 24, record.manifestId) then (s, Err(BadManifestId))
    else if !IsToken("sha256:", 64, record.manifestDigest) then (s, Err(BadDigest))
    else if !MayWrite(env, s) then (s, Err(SinkRolledBack))
    else if !SinkValid(env, trust, s.records) then (s, Err(SinkInvalid))
    else
      match LatestPin(s.records, record.manifestId)
      case Some(pin) =>
        (s, if pin.manifestDigest == record.manifestDigest then Ok(PinReceipt(pin.pinId, false)) else Err(OtherDigest))
      case None =>
        var next := Shared(s.records + [record], Some(RecordDigest(env, record)));
        (next, if Resolved(env, trust, next, record.manifestId) == Some(record.manifestDigest)
               then Ok(PinReceipt(record.pinId, true)) else Err(ReadBackFailed))
  }

  // -- What pinning gives ---------------------------------------------------------------------

  lemma {:induction false} PinsMeaning(records: seq<Record>, manifestId: string)
    ensures LatestPin(records, manifestId) == LastOf(PinsOf(records, manifestId))
  {
    if records != [] {
      PinsOfLast(records, manifestId);
      PinsMeaning(records[..|records| - 1], manifestId);
    }
  }

  function LastOf(records: seq<Record>): Option<Record> {
    if records == [] then None else Some(records[|records| - 1])
  }

  lemma PinsOfLast(records: seq<Record>, manifestId: string)
    requires records != []
    ensures var before, last := records[..|records| - 1], records[|records| - 1];
      PinsOf(records, manifestId) ==
        PinsOf(before, manifestId) + if last.Pin? && last.manifestId == manifestId then [last] else []
  {
    var before, last := records[..|records| - 1], records[|records| - 1];
    assert records == before + [last];
    FilterAppend(before, [last], (r: Record) => r.Pin? && r.manifestId == manifestId);
  }

  ghost predicate OncePinned(records: seq<Record>, manifestId: string) {
    forall i, j :: 0 <= i < j < |records| && records[i].Pin? && records[j].Pin? && records[j].manifestId == manifestId ==>
      records[i].manifestId != manifestId
  }

  lemma {:induction false} AtMostOnePin(records: seq<Record>, manifestId: string)
    requires OncePinned(records, manifestId)
    ensures |PinsOf(records, manifestId)| <= 1
  {
    if records != [] {
      var before, last := records[..|records| - 1], records[|records| - 1];
      PinsOfLast(records, manifestId);
      AtMostOnePin(before, manifestId);
      if last.Pin? && last.manifestId == manifestId {
        assert forall r :: r in before ==> !(r.Pin? && r.manifestId == manifestId);
        FilterNone(before, (r: Record) => r.Pin? && r.manifestId == manifestId);
      }
    }
  }

  /** A manifest resolves exactly when the sink is valid, in step, and holds a pin for it. */
  lemma ResolvesIffPinned(env: SinkEnv, trust: Trust, s: Shared, manifestId: string)
    ensures Resolved(env, trust, s, manifestId) ==
      if SinkValid(env, trust, s.records) && InStep(env, s) && LatestPin(s.records, manifestId).Some?
      then Some(LatestPin(s.records, manifestId).value.manifestDigest) else None
  {
    PinsMeaning(s.records, manifestId);
    if SinkValid(env, trust, s.records) { AtMostOnePin(s.records, manifestId); }
  }

  /** A successful pin resolves to its digest at once; pinning again writes nothing and
      reports the stored pin, and another digest is refused. */
  lemma PinThenResolve(env: SinkEnv, trust: Trust, s: Shared, record: Record, again: Record)
    requires record.Pin? && again.Pin? && again.manifestId == record.manifestId
    requires IsToken("sha256:", 64, again.manifestDigest)
    ensures var (next, result) := Pinned(env, trust, s, record);
      result.Ok? ==>
        && Resolved(env, trust, next, record.manifestId) == Some(record.manifestDigest)
        && Pinned(env, trust, next, again).0 == next
        && (Pinned(env, trust, next, again).1.Ok? <==> again.manifestDigest == record.manifestDigest)
  {
    ResolvesIffPinned(env, trust, s, record.manifestId);
    ResolvesIffPinned(env, trust, Pinned(env, trust, s, record).0, record.manifestId);
  }

  /** A refusal leaves sink and database alone, except when the record just written fails its
      own read-back, which a valid record with a fresh pin id never does. */
  lemma RefusedPinChangesNothing(env: SinkEnv, trust: Trust, s: Shared, record: Record)
    requires record.Pin?
    ensures var (next, result) := Pinned(env, trust, s, record);
      && (result.Err? && !result.error.ReadBackFailed? ==> next == s)
      && (result == Err(ReadBackFailed) ==> !RecordOk(env, trust, record) || exists r :: r in s.records && r.Pin? && r.pinId == record.pinId)
  {
    var (next, result) := Pinned(env, trust, s, record);
    if result == Err(ReadBackFailed) && RecordOk(env, trust, record)
       && !(exists r :: r in s.records && r.Pin? && r.pinId == record.pinId) {
      LatestPinIsStored(s.records, record.manifestId);
      assert SinkValid(env, trust, next.records);
      ResolvesIffPinned(env, trust, next, record.manifestId);
      assert false;
    }
  }

  /** What a pin answers before it would write: a malformed id or digest, a rolled-back or invalid
      sink, another digest under the id, each named exactly when it is the first obstacle. */
  lemma PinRefusedIff(env: SinkEnv, trust: Trust, s: Shared, record: Record)
    requires record.Pin?
    ensures var (next, result) := Pinned(env, trust, s, record);
      var wellFormed := HexBehind("sct_", 24, record.manifestId) && HexBehind("sha256:", 64, record.manifestDigest);
      var inStep := s.records == [] || s.head == RecordedHead(env, s.records);
      && (result == Err(BadManifestId) <==> !HexBehind("sct_", 24, record.manifestId))
      && (result == Err(BadDigest) <==>
            HexBehind("sct_", 24, record.manifestId) && !HexBehind("sha256:", 64, record.manifestDigest))
      && (result == Err(SinkRolledBack) <==> wellFormed && !inStep)
      && (result == Err(SinkInvalid) <==> wellFormed && inStep && !SinkValid(env, trust, s.records))
      && (result == Err(OtherDigest) <==>
            && wellFormed && inStep && SinkValid(env, trust, s.records)
            && exists r :: r in s.records && r.Pin? && r.manifestId == record.manifestId && r.manifestDigest != record.manifestDigest)
  {
    TokenIsHex("sct_", 24, record.manifestId);
    TokenIsHex("sha256:", 64, record.manifestDigest);
    LatestPinIsStored(s.records, record.manifestId);
    if SinkValid(env, trust, s.records) { OnePinOfManifest(env, trust, s.records, record.manifestId); }
  }

  /** In a valid sink the latest pin of a manifest is its only one. */
  lemma OnePinOfManifest(env: SinkEnv, trust: Trust, records: seq<Record>, manifestId: string)
    requires SinkValid(env, trust, records)
    ensures forall r :: r in records && r.Pin? && r.manifestId == manifestId ==> LatestPin(records, manifestId) == Some(r)
  {
    LatestPinIsStored(records, manifestId);
    var latest := LatestPin(records, manifestId);
    forall r | r in records && r.Pin? && r.manifestId == manifestId ensures latest == Some(r) {
      var i :| 0 <= i < |records| && records[i] == r;
      if latest.None? {
        assert false;
      } else {
        var j :| 0 <= j < |records| && records[j] == latest.value;
        assert i == j;
      }
    }
  }

  /** The writer's rollback check is weaker than the verifier's: of the proper prefixes of an
      orderly sink it refuses every one that keeps a record, and accepts the empty one. */
  lemma WriterRefusesRollbackIff(env: SinkEnv, records: seq<Record>, kept: seq<Record>)
    requires env.Valid() && Orderly(records) && kept < records
    ensures MayWrite(env, Shared(kept, RecordedHead(env, records))) <==>
      kept == [] || (HeadMatches(env, kept, RecordedHead(env, records)) && LastRecordsCollide(env, kept, records))
  {
    if HeadMatches(env, kept, RecordedHead(env, records)) { RollbackIsCaught(env, records, kept); }
  }

  // -- Two writers on one sink -----------------------------------------------------------------

  /** A write has two steps: the locked append, and recording the digest of what it persisted. */
  datatype Writers = Writers(shared: Shared, pending: map<nat, Record>)

  datatype Step = AppendStep(pid: nat, record: Record) | HeadStep(pid: nat)

  function After(env: SinkEnv, w: Writers, e: Step): Writers {
    match e
    case AppendStep(pid, record) =>
      var (records, result) := LocalFileAnchorSink.Appended(w.shared.records, record);
      if result.Err? then w
      else Writers(w.shared.(records := records), w.pending[pid := result.value])
    case HeadStep(pid) =>
      if pid !in w.pending then w
      else Writers(w.shared.(head := Some(RecordDigest(env, w.pending[pid]))), w.pending - {pid})
  }

  /** Recording a digest leaves the database in step with the sink exactly when the record
      that was persisted is still the last one, collisions aside. */
  lemma HeadStepInStepIff(env: SinkEnv, w: Writers, pid: nat)
    requires env.Valid() && pid in w.pending && w.shared.records != []
    ensures var last, mine := w.shared.records[|w.shared.records| - 1], w.pending[pid];
      InStep(env, After(env, w, HeadStep(pid)).shared) <==>
        mine == last || DigestCollides(env, (env.codec.encode(mine), env.codec.encode(last)))
  {
    var last, mine := w.shared.records[|w.shared.records| - 1], w.pending[pid];
    assert mine != last ==> env.codec.decode(env.codec.encode(mine)) != env.codec.decode(env.codec.encode(last));
  }

  /** Alone, a writer ends in step unless the append repeats a stored record that is no longer
      the last one: a new record always leaves the database in step, and a repeated one exactly
      when it is the last record, collisions aside. */
  lemma OneWriterInStepIff(env: SinkEnv, w: Writers, pid: nat, record: Record)
    requires env.Valid() && LocalFileAnchorSink.Appended(w.shared.records, record).1.Ok?
    ensures var (records, result) := LocalFileAnchorSink.Appended(w.shared.records, record);
      var next := After(env, After(env, w, AppendStep(pid, record)), HeadStep(pid));
      && records != [] && next.shared.records == records
      && (records != w.shared.records ==> InStep(env, next.shared))
      && (InStep(env, next.shared) <==>
            || result.value == records[|records| - 1]
            || DigestCollides(env, (env.codec.encode(result.value), env.codec.encode(records[|records| - 1]))))
  {
    LatestAnchorIsStored(w.shared.records);
    if record.Pin? { LatestPinIsStored(w.shared.records, record.manifestId); }
    HeadStepInStepIff(env, After(env, w, AppendStep(pid, record)), pid);
  }

  /** Two interleaved writers can end out of step with nobody at fault: both append, then they
      record their digests in the opposite order. From there every further write is refused. */
  lemma TwoWritersCanStall(env: SinkEnv, a: Record, b: Record)
    requires env.Valid() && a.Anchor? && b.Anchor? && a.seqNo < b.seqNo
    ensures var start := Writers(Shared([], None), map[]);
      var end := After(env, After(env, After(env, After(env, start,
                   AppendStep(0, a)), AppendStep(1, b)), HeadStep(1)), HeadStep(0));
      && end.shared.records == [a, b] && end.pending == map[]
      && (MayWrite(env, end.shared) <==> DigestCollides(env, (env.codec.encode(a), env.codec.encode(b))))
  {
    var start := Writers(Shared([], None), map[]);
    var one := After(env, start, AppendStep(0, a));
    assert one.shared.records == [a] by { assert [] + [a] == [a]; assert LatestAnchor([]) == None; }
    var two := After(env, one, AppendStep(1, b));
    assert LatestAnchor([a]) == Some(a);
    assert two.shared.records == [a, b] && two.pending == map[0 := a, 1 := b];
    var three := After(env, two, HeadStep(1));
    HeadStepInStepIff(env, three, 0);
  }

  // -- The writer object ---------------------------------------------------------------------------

  /** Waiting time after the n-th failure in a row. */
  function Backoff(first: real, most: real, n: nat): real
    requires n > 0
  {
    var delay := first * Power(n - 1);
    if delay < most then delay else most
  }

  function Power(n: nat): (r: real)
    ensures r >= 1.0
  {
    if n == 0 then 1.0 else 2.0 * Power(n - 1)
  }

  /** Waits never shrink while failures go on, and never exceed the maximum. */
  lemma BackoffGrows(first: real, most: real, n: nat)
    requires 0.0 < first <= most && n > 0
    ensures first <= Backoff(first, most, n) <= Backoff(first, most, n + 1) <= most
  {
    var p := Power(n - 1);
    assert Power(n) == 2.0 * p;
    assert first * (2.0 * p) == 2.0 * (first * p);
    assert first * p >= first * 1.0;
  }

  /** The first wait is the first delay, and every further failure doubles it, up to the maximum. */
  lemma BackoffDoubles(first: real, most: real, n: nat)
    requires 0.0 < first <= most && n > 0
    ensures Backoff(first, most, 1) == first
    ensures Backoff(first, most, n + 1) ==
      if 2.0 * Backoff(first, most, n) <= most then 2.0 * Backoff(first, most, n) else most
  {
    var p := Power(n - 1);
    assert Power(n) == 2.0 * p && Power(0) == 1.0;
    assert first * (2.0 * p) == 2.0 * (first * p);
  }

  class SinkWriter {
    const env: SinkEnv
    const trust: Trust
    const first: real
    const most: real
    const sink: LocalFileAnchorSink
    var head: Option<string>
    var failures: nat
    var nextRetryAt: real

    constructor (
      env: SinkEnv, trust: Trust, sink: LocalFileAnchorSink, head: Option<string>, first: real, most: real)
      requires sink.env == env
      ensures this.env == env && this.trust == trust && this.sink == sink && this.head == head && sink.env == this.env
      ensures failures == 0
    {
      this.env, this.trust, this.sink, this.head := env, trust, sink, head;
      this.first, this.most := first, most;
      failures, nextRetryAt := 0, 0.0;
    }

    /** What the sink and the database show, when the file reads at all. */
    function View(): Option<Shared>
      reads this, sink
    {
      var records := ReadRecords(env.codec, sink.file);
      if records.None? then None else Some(Shared(records.value, head))
    }

    method ResolveManifestDigest(manifestId: string) returns (digest: Option<string>)
      requires env.Valid()
      ensures digest == if View().None? then None else Resolved(env, trust, View().value, manifestId)
    {
      if !WholeLines(sink.file) {
        return None;
      }
      var records := ParseRecordLines(env.codec, sink.file);
      if records.None? {
        return None;
      }
      var valid := ValidateSinkRecords(env, trust, records.value);
      if !valid || !HeadMatches(env, records.value, head) {
        return None;
      }
      var pins := PinsOf(records.value, manifestId);
      if |pins| != 1 {
        return None;
      }
      assert pins[0] in pins;
      return Some(pins[0].manifestDigest);
    }

    method RecordFailure(now: real)
      modifies this`failures, this`nextRetryAt
      ensures failures == old(failures) + 1 && nextRetryAt == now + Backoff(first, most, failures)
    {
      failures := failures + 1;
      nextRetryAt := now + Backoff(first, most, failures);
    }

    method PinManifest(record: Record, now: real) returns (result: Result<PinReceipt, WriteError>)
      requires env.Valid() && sink.env == env && record.Pin?
      modifies this, sink
      ensures match old(View())
              case None =>
                sink.file == old(sink.file) && head == old(head) && result.Err?
              case Some(s) =>
                View() == Some(Pinned(env, trust, s, record).0) && result == Pinned(env, trust, s, record).1
      ensures failures == old(failures) + if result.Ok? || result.error in {BadManifestId, BadDigest} then 0 else 1
      ensures failures != old(failures) ==> nextRetryAt == now + Backoff(first, most, failures)
    {
      if !IsToken("sct_", 24, record.manifestId) {
        return Err(BadManifestId);
      }
      if !IsToken("sha256:", 64, record.manifestDigest) {
        return Err(BadDigest);
      }
      result := TryPin(record);
      if result.Err? {
        RecordFailure(now);
      }
    }

    method TryPin(record: Record) returns (result: Result<PinReceipt, WriteError>)
      requires env.Valid() && sink.env == env && record.Pin?
      requires IsToken("sct_", 24, record.manifestId) && IsToken("sha256:", 64, record.manifestDigest)
      modifies this`head, sink
      ensures match old(View())
              case None =>
                sink.file == old(sink.file) && head == old(head) && result == Err(UnreadableSink)
              case Some(s) =>
                View() == Some(Pinned(env, trust, s, record).0) && result == Pinned(env, trust, s, record).1
      ensures result.Err? ==> result.error !in {BadManifestId, BadDigest}
    {
      var read := RecordsForWrite();
      if read.Err? {
        return Err(read.error);
      }
      var records := read.value;
      var existing := LatestPin(records, record.manifestId);
      if existing.Some? {
        if existing.value.manifestDigest != record.manifestDigest {
          return Err(OtherDigest);
        }
        return Ok(PinReceipt(existing.value.pinId, false));
      }
      var persisted := sink.Append(record);
      head := Some(RecordDigest(env, persisted.value));
      var resolved := ResolveManifestDigest(record.manifestId);
      if resolved != Some(record.manifestDigest) {
        return Err(ReadBackFailed);
      }
      return Ok(PinReceipt(persisted.value.pinId, persisted.value.pinId == record.pinId));
    }

    /** The records a write may add to, or why it may not. */
    method RecordsForWrite() returns (read: Result<seq<Record>, WriteError>)
      requires env.Valid()
      ensures match read
              case Ok(records) =>
                && View() == Some(Shared(records, head)) && MayWrite(env, View().value) && SinkValid(env, trust, records)
                && forall r :: r in records ==> Authentic(env, trust, r)
              case Err(e) =>
                e == (if View().None? then UnreadableSink
                      else if !MayWrite(env, View().value) then SinkRolledBack else SinkInvalid)
                && (View().None? || !MayWrite(env, View().value) || !SinkValid(env, trust, View().value.records))
    {
      if !WholeLines(sink.file) {
        return Err(UnreadableSink);
      }
      var records := ParseRecordLines(env.codec, sink.file);
      if records.None? {
        return Err(UnreadableSink);
      }
      if records.value != [] && !HeadMatches(env, records.value, head) {
        return Err(SinkRolledBack);
      }
      var valid := ValidateSinkRecords(env, trust, records.value);
      return if valid then Ok(records.value) else Err(SinkInvalid);
    }

    /** Verifies what the check sees against the sink as it stands. */
    method Verify(c: Check, records: seq<Record>, priorFailure: bool) returns (receipt: Receipt)
      requires env.Valid()
      ensures receipt.ok <==> Healthy(env, trust, c, Shared(records, head)) && !priorFailure
      ensures receipt.ok ==> receipt.latest == LatestAnchor(records)
    {
      receipt := VerifyChainAgainstAnchors(
        c.chain, env, trust, ViewOf(c, head), SinkRecords(records), c.cadence, c.now, priorFailure);
      LatestAnchorIsLast(records);
    }

    /** Anchors the captured head: the sink, the recorded digest and the answer are exactly the
        specified ones, and the receipt is ok exactly when the result is healthy. */
    method Anchor(c: Check, captured: Captured, record: Record, priorFailure: bool)
      returns (result: Result<(Receipt, bool), WriteError>)
      requires env.Valid() && sink.env == env
      requires record.Anchor? && NamesHead(captured, record)
      modifies this, sink
      ensures match old(View())
              case None =>
                && sink.file == old(sink.file) && head == old(head)
                && result == Err(if captured.seqNo == 0 then EmptyChain else UnreadableSink)
              case Some(s) =>
                && View() == Some(Anchored(env, trust, s, captured, c, record).0)
                && Told(result) == Anchored(env, trust, s, captured, c, record).1
                && (result.Ok? ==>
                      (result.value.0.ok <==> Healthy(env, trust, c, View().value) && (result.value.1 || !priorFailure)))
      ensures failures ==
        if result.Err? then old(failures) + 1 else if result.value.0.ok then 0 else old(failures)
    {
      if captured.seqNo == 0 {
        RecordFailure(c.now);
        return Err(EmptyChain);
      }
      var read := RecordsForWrite();
      if read.Err? {
        RecordFailure(c.now);
        return Err(read.error);
      }
      var latest := LatestAnchor(read.value);
      if latest.Some? && NamesHead(captured, latest.value) {
        var receipt := Verify(c, read.value, priorFailure);
        if receipt.ok {
          failures, nextRetryAt := 0, 0.0;
        }
        return Ok((receipt, false));
      }
      result := AppendAnchor(c, captured, record, read.value);
      if result.Err? {
        RecordFailure(c.now);
      } else {
        failures, nextRetryAt := 0, 0.0;
      }
    }

    /** Append, record the digest, and read the whole thing back. */
    method AppendAnchor(c: Check, captured: Captured, record: Record, ghost before: seq<Record>)
      returns (result: Result<(Receipt, bool), WriteError>)
      requires env.Valid() && sink.env == env && View() == Some(Shared(before, head))
      requires record.Anchor? && NamesHead(captured, record)
      requires LatestAnchor(before).Some? ==> !NamesHead(captured, LatestAnchor(before).value)
      modifies this`head, sink
      ensures var (s, told) := AppendedAnchor(env, trust, Shared(before, old(head)), c, record);
        View() == Some(s) && Told(result) == told && (result.Ok? ==> result.value.0.ok)
    {
      var persisted := sink.Append(record);
      if persisted.Err? {
        return Err(Refused(persisted.error));
      }
      head := Some(RecordDigest(env, persisted.value));
      var records := ParseRecordLines(env.codec, sink.file);
      assert records == Some(before + [record]);
      LatestOfAppend(before, record);
      var receipt := Verify(c, records.value, false);
      if !receipt.ok || receipt.latest.value.anchorId != persisted.value.anchorId
         || receipt.latest.value.seqNo != captured.seqNo {
        return Err(ReadBackFailed);
      }
      return Ok((receipt, persisted.value.anchorId == record.anchorId));
    }
  }

  /** The head row when anchoring began; number zero stands for an empty log. */
  datatype Captured = Captured(seqNo: int, rowHash: string)

  /** What the read-back sees: others may have appended since the head was captured, and again
      between its own capture of the head, its walk over the rows and its lookups. */
  datatype Check = Check(
    chain: Env, head: int, rows: seq<AuditRow>, found: seq<AuditRow>, cadence: Cadence, now: real)

  predicate NamesHead(captured: Captured, record: Record)
    requires record.Anchor?
  {
    record.seqNo == captured.seqNo && record.rowHash == captured.rowHash
  }

  function ViewOf(c: Check, head: Option<string>): AuditView {
    AuditView(c.head, c.rows, head, c.found)
  }

  function Told(result: Result<(Receipt, bool), WriteError>): Result<bool, WriteError> {
    match result case Ok(pair) => Ok(pair.1) case Err(e) => Err(e)
  }

  /** The chain is valid, every anchor is accepted and the latest is fresh. */
  ghost predicate Healthy(env: SinkEnv, trust: Trust, c: Check, s: Shared) {
    && ChainOk(c.chain, c.rows) && AnchorsAccepted(env, trust, ViewOf(c, s.head), s.records)
    && Fresh(c, LatestAnchor(s.records))
  }

  predicate Fresh(c: Check, latest: Option<Record>) {
    && latest.Some? && latest.value.Anchor? && latest.value.signed.createdAt.Some?
    && !Due(c.head - latest.value.seqNo, latest.value.signed.createdAt.value, c.now, c.cadence)
  }

  /** Appending a new anchor and reading it back; Ok(true) says it was written. */
  ghost function AppendedAnchor(env: SinkEnv, trust: Trust, s: Shared, c: Check, record: Record)
    : (Shared, Result<bool, WriteError>)
  {
    match IdempotentExisting(s.records, record)
    case Err(e) => (s, Err(Refused(e)))
    case Ok(_) =>
      var next := Shared(s.records + [record], Some(RecordDigest(env, record)));
      (next, if Healthy(env, trust, c, next) then Ok(true) else Err(ReadBackFailed))
  }

  /** Everything anchoring does, given the signed record it would append. */
  ghost function Anchored(env: SinkEnv, trust: Trust, s: Shared, captured: Captured, c: Check, record: Record)
    : (Shared, Result<bool, WriteError>)
    requires record.Anchor?
  {
    if captured.seqNo == 0 then (s, Err(EmptyChain))
    else if !MayWrite(env, s) then (s, Err(SinkRolledBack))
    else if !SinkValid(env, trust, s.records) then (s, Err(SinkInvalid))
    else if LatestAnchor(s.records).Some? && NamesHead(captured, LatestAnchor(s.records).value) then (s, Ok(false))
    else AppendedAnchor(env, trust, s, c, record)
  }

  lemma LatestOfAppend(records: seq<Record>, record: Record)
    requires record.Anchor?
    ensures LatestAnchor(records + [record]) == Some(record)
    ensures Anchors(records + [record]) == Anchors(records) + [record]
  {
    FilterAppend(records, [record], (r: Record) => r.Anchor?);
    assert (records + [record])[..|records|] == records;
  }

  /** The stored anchors climb and name stored rows. */
  ghost predicate AnchorsHold(rows: seq<AuditRow>, records: seq<Record>) {
    AnchorsClimb(Anchors(records)) && forall i :: 0 <= i < |Anchors(records)| ==> RowMatchesAnchor(rows, Anchors(records)[i])
  }

  ghost predicate FreshId(records: seq<Record>, record: Record)
    requires record.Anchor?
  {
    forall i :: 0 <= i < |Anchors(records)| && Anchors(records)[i].Anchor? ==> Anchors(records)[i].anchorId != record.anchorId
  }

  /** When anchoring writes and succeeds: on a sink it may write to, exactly for a properly
      signed record with a fresh id that names a stored row above every anchor so far and not
      above the head, over a valid chain whose earlier anchors hold, and in time. */
  lemma AnchoringSucceedsIff(env: SinkEnv, trust: Trust, s: Shared, captured: Captured, c: Check, record: Record)
    requires record.Anchor? && NamesHead(captured, record) && captured.seqNo > 0
    requires MayWrite(env, s) && SinkValid(env, trust, s.records)
    ensures Anchored(env, trust, s, captured, c, record).1 == Ok(true) <==>
      && (LatestAnchor(s.records).Some? ==> LatestAnchor(s.records).value.seqNo < captured.seqNo)
      && RecordOk(env, trust, record) && FreshId(s.records, record) && trust.roots != {}
      && ChainOk(c.chain, c.rows) && AnchorsHold(c.found, s.records) && RowMatchesAnchor(c.found, record)
      && captured.seqNo <= c.head && Fresh(c, Some(record))
  {
    var latest := LatestAnchor(s.records);
    if latest.None? || latest.value.seqNo < captured.seqNo {
      assert IdempotentExisting(s.records, record) == Ok(None);
      HealthyIff(env, trust, s.records, c, record);
    }
  }

  /** A head that is already anchored is reported and nothing is written; a head below the latest
      anchor, or its number with another hash, is refused. */
  lemma AnchoredHeadIsNotWritten(env: SinkEnv, trust: Trust, s: Shared, captured: Captured, c: Check, record: Record)
    requires record.Anchor? && NamesHead(captured, record) && captured.seqNo > 0
    requires MayWrite(env, s) && SinkValid(env, trust, s.records) && LatestAnchor(s.records).Some?
    requires captured.seqNo <= LatestAnchor(s.records).value.seqNo
    ensures var latest := LatestAnchor(s.records).value;
      Anchored(env, trust, s, captured, c, record) ==
        (s, if captured.seqNo < latest.seqNo then Err(Refused(ReorderedAnchor))
            else if captured.rowHash == latest.rowHash then Ok(false) else Err(Refused(ConflictingAnchor)))
  {
  }

  /** Nothing is anchored without a row, on a sink that was rolled back, or on an invalid one. */
  lemma AnchoringRefusedIff(env: SinkEnv, trust: Trust, s: Shared, captured: Captured, c: Check, record: Record)
    requires record.Anchor? && NamesHead(captured, record)
    ensures var result := Anchored(env, trust, s, captured, c, record).1;
      && (result == Err(EmptyChain) <==> captured.seqNo == 0)
      && (result == Err(SinkRolledBack) <==>
            captured.seqNo != 0 && s.records != [] && s.head != RecordedHead(env, s.records))
      && (result == Err(SinkInvalid) <==>
            captured.seqNo != 0 && (s.records == [] || s.head == RecordedHead(env, s.records)) && !SinkValid(env, trust, s.records))
  {
  }

  lemma HealthyIff(env: SinkEnv, trust: Trust, records: seq<Record>, c: Check, record: Record)
    requires record.Anchor? && record.seqNo > 0 && SinkValid(env, trust, records)
    requires LatestAnchor(records).Some? ==> LatestAnchor(records).value.seqNo < record.seqNo
    ensures Healthy(env, trust, c, Shared(records + [record], Some(RecordDigest(env, record)))) <==>
      && RecordOk(env, trust, record) && FreshId(records, record) && trust.roots != {}
      && ChainOk(c.chain, c.rows) && AnchorsHold(c.found, records) && RowMatchesAnchor(c.found, record)
      && record.seqNo <= c.head && Fresh(c, Some(record))
  {
    LatestOfAppend(records, record);
    LatestAnchorIsLast(records);
    AnchorsAreAnchors(records);
    ClimbingAppend(Anchors(records), record);
    MatchingAppend(c.found, Anchors(records), record);
    SinkValidAppend(env, trust, records, record);
  }

  lemma SinkValidAppend(env: SinkEnv, trust: Trust, records: seq<Record>, record: Record)
    requires record.Anchor? && SinkValid(env, trust, records)
    ensures SinkValid(env, trust, records + [record]) <==> RecordOk(env, trust, record)
  {
    var more := records + [record];
    assert more[|records|] == record && forall i :: 0 <= i < |records| ==> more[i] == records[i];
  }

  lemma MatchingAppend(rows: seq<AuditRow>, anchors: seq<Record>, record: Record)
    requires record.Anchor? && forall i :: 0 <= i < |anchors| ==> anchors[i].Anchor?
    ensures (forall i :: 0 <= i < |anchors + [record]| ==> RowMatchesAnchor(rows, (anchors + [record])[i])) <==>
      (forall i :: 0 <= i < |anchors| ==> RowMatchesAnchor(rows, anchors[i])) && RowMatchesAnchor(rows, record)
  {
    var more := anchors + [record];
    assert more[|anchors|] == record && forall i :: 0 <= i < |anchors| ==> more[i] == anchors[i];
  }
}
