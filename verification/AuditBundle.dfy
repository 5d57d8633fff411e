/** Offline bundles: an export of an anchored log verifies, and a bundle that
    verifies against external pins holds the true log and nothing else. */
module AuditBundle {
  import opened Common
  import opened Jsonl
  import opened HashChain
  import opened AnchorSink
  import opened AnchorVerify

  const SCHEMA := "heartwood.audit-bundle.v1"
  const DEFAULT_CADENCE := Cadence(300.0, 1000)

  /** The bundle's own encodings and the digest of its files. */
  datatype BundleEnv = BundleEnv(
    chain: Env, sink: SinkEnv, rows: Codec<AuditRow>, records: Codec<Record>, fileHash: Bytes -> string)
  {
    ghost predicate Valid() { chain.Valid() && sink.Valid() && rows.Valid() && records.Valid() }
  }

  datatype FileReceipt = FileReceipt(sha256: string, size: nat)

  datatype ChainRange = ChainRange(
    chainId: string, firstSeq: int, lastSeq: int, rowCount: nat, firstPrevHash: string, lastRowHash: string)

  datatype Manifest = Manifest(
    schema: string, chain: ChainRange, excludedRows: int,
    sinkId: string, sinkHead: string, latestAnchorId: string, roots: set<string>,
    auditFile: FileReceipt, anchorsFile: FileReceipt)

  datatype Bundle = Bundle(manifest: Manifest, audit: Bytes, anchors: Bytes)

  datatype ExportError = NoTrustedRoot | SinkHasNoAnchors | HeadNotRecorded | NotAClosedSignedChain

  datatype Status = Pass | UntrustedSelfConsistent | FreshnessUnverified | Fail

  function ReceiptOf(env: BundleEnv, file: Bytes): FileReceipt {
    FileReceipt(env.fileHash(file), |file|)
  }

  // -- Export -----------------------------------------------------------------------

  function MaxSeq(anchors: seq<Record>): int
    requires anchors != [] && forall i :: 0 <= i < |anchors| ==> anchors[i].Anchor?
  {
    var last := anchors[|anchors| - 1].seqNo;
    if |anchors| == 1 then last
    else
      var before := MaxSeq(anchors[..|anchors| - 1]);
      if before < last then last else before
  }

  lemma {:induction false} ClimbingMaxIsLast(anchors: seq<Record>)
    requires anchors != [] && AnchorsClimb(anchors)
    ensures MaxSeq(anchors) == anchors[|anchors| - 1].seqNo
  {
    if |anchors| > 1 { ClimbingMaxIsLast(anchors[..|anchors| - 1]); }
  }

  function Through(rows: seq<AuditRow>, seqNo: int): seq<AuditRow> {
    if rows == [] then []
    else if rows[|rows| - 1].seqNo <= seqNo then Through(rows[..|rows| - 1], seqNo) + [rows[|rows| - 1]]
    else Through(rows[..|rows| - 1], seqNo)
  }

  /** The rows kept are a prefix of an ordered table. */
  lemma {:induction false} ThroughIsPrefix(rows: seq<AuditRow>, seqNo: int)
    requires Ordered(rows)
    ensures CutAt(rows, Through(rows, seqNo), seqNo)
  {
    if rows != [] {
      ThroughIsPrefix(rows[..|rows| - 1], seqNo);
      OneMoreRow(rows, Through(rows[..|rows| - 1], seqNo), seqNo);
    }
  }

  ghost predicate CutAt(rows: seq<AuditRow>, kept: seq<AuditRow>, seqNo: int) {
    kept <= rows && forall i :: 0 <= i < |rows| ==> (rows[i].seqNo <= seqNo <==> i < |kept|)
  }

  lemma OneMoreRow(rows: seq<AuditRow>, kept: seq<AuditRow>, seqNo: int)
    requires rows != [] && Ordered(rows) && CutAt(rows[..|rows| - 1], kept, seqNo)
    ensures rows[|rows| - 1].seqNo <= seqNo ==> CutAt(rows, kept + [rows[|rows| - 1]], seqNo)
    ensures rows[|rows| - 1].seqNo > seqNo ==> CutAt(rows, kept, seqNo)
  {
    var before, last := rows[..|rows| - 1], rows[|rows| - 1];
    if last.seqNo <= seqNo {
      assert before != [] ==> before[|before| - 1].seqNo <= seqNo;
      assert kept == before && rows == before + [last];
    }
  }

  /** The snapshot verifies: valid chain, accepted anchors, no stale tail. */
  ghost predicate ClosedChain(env: BundleEnv, trust: Trust, view: AuditView, records: seq<Record>) {
    && ChainOk(env.chain, view.rows)
    && AnchorsAccepted(env.sink, trust, view, records)
    && HeadSeq(view.rows) == LatestSeq(records)
  }

  function BundleOf(
    env: BundleEnv, trust: Trust, rows: seq<AuditRow>, currentSeq: int, sinkHead: string, records: seq<Record>,
    latestAnchorId: string): Bundle
    requires rows != []
  {
    var first, last := rows[0], rows[|rows| - 1];
    var audit, anchors := JoinLines(env.rows, rows), JoinLines(env.records, records);
    Bundle(
      Manifest(
        SCHEMA,
        ChainRange(trust.chainId, first.seqNo, last.seqNo, |rows|, first.prevHash, last.rowHash),
        currentSeq - last.seqNo,
        trust.sinkId, sinkHead, latestAnchorId, trust.roots,
        ReceiptOf(env, audit), ReceiptOf(env, anchors)),
      audit, anchors)
  }

  /** What the bundle shows of a database read in one transaction. */
  function Exported(view: AuditView, seqNo: int): AuditView {
    Snapshot(Through(view.rows, seqNo), view.sinkHead)
  }

  /** Only a climbing sink is accepted; there the last anchor is the highest, and the
      snapshot through it ends exactly at the row it names. */
  lemma SnapshotEndsAtLatest(env: BundleEnv, trust: Trust, view: AuditView, records: seq<Record>)
    requires Ordered(view.rows) && Anchors(records) != []
    ensures forall i :: 0 <= i < |Anchors(records)| ==> Anchors(records)[i].Anchor?
    ensures AnchorsClimb(Anchors(records)) ==> MaxSeq(Anchors(records)) == LatestSeq(records)
    ensures var rows := Through(view.rows, LatestSeq(records));
      AnchorsAccepted(env.sink, trust, Exported(view, LatestSeq(records)), records) ==>
        rows != [] && HeadSeq(rows) == LatestSeq(records)
  {
    AnchorsAreAnchors(records);
    LatestAnchorIsLast(records);
    if AnchorsClimb(Anchors(records)) { ClimbingMaxIsLast(Anchors(records)); }
    if AnchorsAccepted(env.sink, trust, Exported(view, LatestSeq(records)), records) {
      EndsAtAnchoredRow(env, trust, view, records);
    }
  }

  lemma EndsAtAnchoredRow(env: BundleEnv, trust: Trust, view: AuditView, records: seq<Record>)
    requires Ordered(view.rows) && AnchorsAccepted(env.sink, trust, Exported(view, LatestSeq(records)), records)
    ensures var rows := Through(view.rows, LatestSeq(records)); rows != [] && HeadSeq(rows) == LatestSeq(records)
  {
    var rows := Through(view.rows, LatestSeq(records));
    ThroughIsPrefix(view.rows, LatestSeq(records));
    var i := AnchoredPosition(env.sink, trust, Exported(view, LatestSeq(records)), records);
    assert rows[|rows| - 1] == view.rows[|rows| - 1];
  }

  /** The default-cadence verification of a snapshot that ends at its latest anchor. */
  method VerifySnapshot(env: BundleEnv, trust: Trust, view: AuditView, records: seq<Record>, now: real)
    returns (closed: bool)
    requires Ordered(view.rows) && view == Snapshot(view.rows, view.sinkHead)
    requires AnchorsAccepted(env.sink, trust, view, records) ==> HeadSeq(view.rows) == LatestSeq(records)
    ensures closed <==> ClosedChain(env, trust, view, records)
  {
    LatestAnchorIsLast(records);
    var receipt := VerifyChainAgainstAnchors(
      env.chain, env.sink, trust, view, SinkRecords(records), DEFAULT_CADENCE, now, false);
    return receipt.ok;
  }

  method Export(env: BundleEnv, trust: Trust, view: AuditView, records: seq<Record>, now: real)
    returns (result: Result<Bundle, ExportError>)
    requires Ordered(view.rows)
    ensures result.Ok? <==>
      && trust.roots != {} && Anchors(records) != [] && view.sinkHead.Some?
      && ClosedChain(env, trust, Exported(view, LatestSeq(records)), records)
    ensures result.Err? ==>
      result.error == (if trust.roots == {} then NoTrustedRoot
                       else if Anchors(records) == [] then SinkHasNoAnchors
                       else if view.sinkHead.None? then HeadNotRecorded else NotAClosedSignedChain)
    ensures result.Ok? ==>
      var rows := Through(view.rows, LatestSeq(records));
      && rows != [] && LatestAnchor(records).Some?
      && result.value == BundleOf(
           env, trust, rows, HeadSeq(view.rows), view.sinkHead.value, records, LatestAnchor(records).value.anchorId)
  {
    if trust.roots == {} {
      return Err(NoTrustedRoot);
    }
    if Anchors(records) == [] {
      return Err(SinkHasNoAnchors);
    }
    if view.sinkHead.None? {
      return Err(HeadNotRecorded);
    }
    var closed := ClosedSnapshot(env, trust, view, records, now);
    if closed.None? {
      return Err(NotAClosedSignedChain);
    }
    var (rows, latest) := closed.value;
    return Ok(BundleOf(env, trust, rows, HeadSeq(view.rows), view.sinkHead.value, records, latest));
  }

  /** The rows through the highest anchor with the id of the last one, if they verify. */
  method ClosedSnapshot(env: BundleEnv, trust: Trust, view: AuditView, records: seq<Record>, now: real)
    returns (closed: Option<(seq<AuditRow>, string)>)
    requires Ordered(view.rows) && Anchors(records) != []
    ensures closed.Some? <==> ClosedChain(env, trust, Exported(view, LatestSeq(records)), records)
    ensures closed.Some? ==> LatestAnchor(records).Some?
    ensures closed.Some? ==> closed.value.0 != []
    ensures closed.Some? ==>
      closed.value == (Through(view.rows, LatestSeq(records)), LatestAnchor(records).value.anchorId)
  {
    var anchors := Anchors(records);
    AnchorsAreAnchors(records);
    LatestAnchorIsLast(records);
    var rows := Through(view.rows, MaxSeq(anchors));
    ThroughIsPrefix(view.rows, MaxSeq(anchors));
    SnapshotEndsAtLatest(env, trust, view, records);
    var ok := VerifySnapshot(env, trust, Exported(view, MaxSeq(anchors)), records, now);
    assert ok ==> AnchorsClimb(anchors);
    assert ClosedChain(env, trust, Exported(view, LatestSeq(records)), records)
      ==> AnchorsClimb(anchors);
    return if ok then Some((rows, anchors[|anchors| - 1].anchorId)) else None;
  }

  // -- Verification -----------------------------------------------------------------

  predicate FilesMatch(env: BundleEnv, b: Bundle) {
    && b.manifest.schema == SCHEMA
    && ReceiptOf(env, b.audit) == b.manifest.auditFile
    && ReceiptOf(env, b.anchors) == b.manifest.anchorsFile
    && b.audit != [] && b.anchors != []
  }

  /** The rows are numbered from one without gaps, start at genesis, and are the manifest's range. */
  ghost predicate RangeOk(chain: ChainRange, rows: seq<AuditRow>) {
    && rows != [] && Numbered(rows)
    && chain.firstSeq == 1 && chain.lastSeq == |rows| && chain.rowCount == |rows|
    && chain.firstPrevHash == rows[0].prevHash == GENESIS
    && chain.lastRowHash == rows[|rows| - 1].rowHash
  }

  function TrustOf(m: Manifest, external: set<string>): Trust {
    Trust(m.sinkId, m.chain.chainId, if external == {} then m.roots else external)
  }

  /** Everything a bundle shows of itself, under the given roots. */
  ghost predicate SelfConsistent(env: BundleEnv, b: Bundle, external: set<string>) {
    var rows, records := ReadRecords(env.rows, b.audit), ReadRecords(env.records, b.anchors);
    && FilesMatch(env, b) && rows.Some? && records.Some?
    && RangeOk(b.manifest.chain, rows.value)
    && ClosedChain(
         env, TrustOf(b.manifest, external),
         Snapshot(rows.value, Some(b.manifest.sinkHead)), records.value)
  }

  function LatestId(env: BundleEnv, b: Bundle): Option<string> {
    var records := ReadRecords(env.records, b.anchors);
    if records.None? then None
    else
      var latest := LatestAnchor(records.value);
      if latest.None? then None else Some(latest.value.anchorId)
  }

  method ValidateManifestRange(chain: ChainRange, rows: seq<AuditRow>) returns (ok: bool)
    requires rows != []
    ensures ok <==> RangeOk(chain, rows)
  {
    for i := 0 to |rows|
      invariant Numbered(rows[..i])
    {
      if rows[i].seqNo != i + 1 {
        return false;
      }
    }
    assert rows[..|rows|] == rows;
    return chain.firstSeq == rows[0].seqNo && chain.lastSeq == rows[|rows| - 1].seqNo
        && chain.rowCount == |rows| && chain.firstPrevHash == rows[0].prevHash
        && chain.lastRowHash == rows[|rows| - 1].rowHash && rows[0].prevHash == GENESIS;
  }

  /** The rows and records of a bundle whose file receipts are right. */
  method ReadBundle(env: BundleEnv, b: Bundle) returns (read: Option<(seq<AuditRow>, seq<Record>)>)
    requires env.Valid()
    ensures match read
            case Some(pair) =>
              FilesMatch(env, b) && pair.0 != []
              && ReadRecords(env.rows, b.audit) == Some(pair.0) && ReadRecords(env.records, b.anchors) == Some(pair.1)
            case None =>
              !FilesMatch(env, b) || ReadRecords(env.rows, b.audit) in {None, Some([])}
              || ReadRecords(env.records, b.anchors).None?
  {
    if !FilesMatch(env, b) || !WholeLines(b.audit) || !WholeLines(b.anchors) {
      return None;
    }
    var rows := ParseRecordLines(env.rows, b.audit);
    var records := ParseRecordLines(env.records, b.anchors);
    if rows.None? || records.None? || rows.value == [] {
      return None;
    }
    return Some((rows.value, records.value));
  }

  /** The latest anchor of a closed chain, or None when the chain is not closed. */
  method CheckClosed(env: BundleEnv, trust: Trust, view: AuditView, records: seq<Record>, now: real)
    returns (latest: Option<Record>)
    requires Ordered(view.rows) && view == Snapshot(view.rows, view.sinkHead)
    ensures latest.Some? <==> ClosedChain(env, trust, view, records)
    ensures latest.Some? ==> latest == LatestAnchor(records)
    ensures latest.Some? ==> forall r :: r in records ==> Authentic(env.sink, trust, r)
  {
    if trust.roots == {} {
      return None;
    }
    LatestAnchorIsLast(records);
    AnchorsAreAnchors(records);
    var receipt := VerifyChainAgainstAnchors(
      env.chain, env.sink, trust, view, SinkRecords(records), DEFAULT_CADENCE, now, false);
    if receipt.rowsSince != 0 && receipt.chainOk && receipt.anchorsOk {
      return None;
    }
    if !receipt.ok {
      return None;
    }
    return receipt.latest;
  }

  method VerifyBundle(
    env: BundleEnv, b: Bundle, external: set<string>, expectedLatest: Option<string>, now: real)
    returns (status: Status)
    requires env.Valid()
    ensures status ==
      if !SelfConsistent(env, b, external) then Fail
      else if external == {} then UntrustedSelfConsistent
      else if expectedLatest.None? then FreshnessUnverified
      else if expectedLatest == LatestId(env, b) then Pass
      else Fail
    ensures !status.Fail? ==>
      var records := ReadRecords(env.records, b.anchors);
      records.Some? && forall r :: r in records.value ==> Authentic(env.sink, TrustOf(b.manifest, external), r)
  {
    var read := ReadBundle(env, b);
    if read.None? {
      return Fail;
    }
    var (rows, records) := read.value;
    var inRange := ValidateManifestRange(b.manifest.chain, rows);
    if !inRange {
      return Fail;
    }
    var view := Snapshot(rows, Some(b.manifest.sinkHead));
    var latest := CheckClosed(env, TrustOf(b.manifest, external), view, records, now);
    if latest.None? {
      return Fail;
    }
    if external == {} {
      return UntrustedSelfConsistent;
    }
    if expectedLatest.None? {
      return FreshnessUnverified;
    }
    return if latest.value.anchorId == expectedLatest.value then Pass else Fail;
  }

  // -- The two directions ---------------------------------------------------------------

  /** Exporting a well-numbered log that verifies gives a bundle that is consistent
      under the exporting roots and whose latest anchor is the exported one: with
      those pins its status is Pass. */
  lemma ExportedBundleVerifies(env: BundleEnv, trust: Trust, view: AuditView, records: seq<Record>, head: string)
    requires env.Valid() && Numbered(view.rows) && view.sinkHead == Some(head)
    requires ClosedChain(env, trust, Exported(view, LatestSeq(records)), records)
    ensures var rows := Through(view.rows, LatestSeq(records));
      && rows != [] && LatestAnchor(records).Some?
      && var id := LatestAnchor(records).value.anchorId;
         var b := BundleOf(env, trust, rows, HeadSeq(view.rows), head, records, id);
         && SelfConsistent(env, b, trust.roots) && SelfConsistent(env, b, {})
         && LatestId(env, b) == Some(id)
  {
    var rows := Through(view.rows, LatestSeq(records));
    LatestAnchorIsLast(records);
    SnapshotEndsAtLatest(env, trust, view, records);
    ThroughIsPrefix(view.rows, LatestSeq(records));
    SnapshotInRange(env.chain, rows, trust.chainId);
    BundleReadsBack(env, trust, rows, HeadSeq(view.rows), head, records, LatestAnchor(records).value.anchorId);
  }

  /** An honest log whose sink holds an anchor always exports, however it was run: the snapshot
      is closed, and the bundle is consistent with the exported anchor as its latest. */
  lemma HonestLogExports(env: BundleEnv, trust: Trust, events: seq<Event>, incoming: seq<Record>)
    requires env.Valid()
    requires HonestAppends(env.sink, trust, Run(env.chain, FRESH_WRITER, events).signed, incoming)
    requires Anchors(AppendAll([], incoming)) != []
    ensures var log, records := Run(env.chain, FRESH_WRITER, events).log, AppendAll([], incoming);
      var view, n := Snapshot(log, RecordedHead(env.sink, records)), LatestSeq(records);
      && trust.roots != {} && view.sinkHead.Some? && 0 < n <= |log| && Through(log, n) == log[..n]
      && ClosedChain(env, trust, Exported(view, n), records)
      && LatestAnchor(records).Some?
      && var id := LatestAnchor(records).value.anchorId;
         var b := BundleOf(env, trust, log[..n], HeadSeq(log), view.sinkHead.value, records, id);
         && SelfConsistent(env, b, trust.roots) && SelfConsistent(env, b, {}) && LatestId(env, b) == Some(id)
         && b.manifest.excludedRows == |log| - n && b.manifest.latestAnchorId == id
  {
    var log, records := Run(env.chain, FRESH_WRITER, events).log, AppendAll([], incoming);
    var view, n := Snapshot(log, RecordedHead(env.sink, records)), LatestSeq(records);
    RunsAreHonest(env.chain, events);
    HonestAnchorsAreLogged(env.chain, env.sink, trust, events, incoming);
    NumberedThrough(log, n);
    HonestLogAcceptedIff(env.chain, env.sink, trust, events, incoming, n, n, n);
    assert Exported(view, n) == Growing(log, n, n, n, view.sinkHead);
    ExportedBundleVerifies(env, trust, view, records, view.sinkHead.value);
  }

  /** What a consistent manifest says of its bundle is true: its schema, its range, its chain, and
      the last record of its sink. */
  lemma ConsistentManifestIsTrue(env: BundleEnv, b: Bundle, external: set<string>)
    requires SelfConsistent(env, b, external)
    ensures var rows, records := ReadRecords(env.rows, b.audit).value, ReadRecords(env.records, b.anchors).value;
      var range := b.manifest.chain;
      && b.manifest.schema == "heartwood.audit-bundle.v1" && rows != [] && records != []
      && range.firstSeq == rows[0].seqNo == 1 && range.lastSeq == rows[|rows| - 1].seqNo && range.rowCount == |rows|
      && range.firstPrevHash == rows[0].prevHash == "genesis" && range.lastRowHash == rows[|rows| - 1].rowHash
      && b.manifest.sinkHead == env.sink.digest(env.sink.codec.encode(records[|records| - 1]))
      && (forall r :: r in records ==> Authentic(env.sink, TrustOf(b.manifest, external), r))
  {
    ValidSinkIff(
      env.sink, TrustOf(b.manifest, external), ReadRecords(env.records, b.anchors).value);
  }

  /** A file that was altered after the export is refused: two consistent bundles with one manifest
      hold the same files, or two files exhibit a collision of the file digest. */
  lemma AlteredFileIsRefused(env: BundleEnv, a: Bundle, b: Bundle, external: set<string>)
    requires a.manifest == b.manifest && SelfConsistent(env, a, external) && SelfConsistent(env, b, external)
    ensures a == b || FilesCollide(env, a.audit, b.audit) || FilesCollide(env, a.anchors, b.anchors)
  {
  }

  ghost predicate FilesCollide(env: BundleEnv, a: Bytes, b: Bytes) {
    a != b && |a| == |b| && env.fileHash(a) == env.fileHash(b)
  }

  lemma NumberedThrough(log: seq<AuditRow>, n: nat)
    requires Numbered(log) && n <= |log|
    ensures Through(log, n) == log[..n]
  {
    ThroughIsPrefix(log, n);
  }

  lemma BundleReadsBack(
    env: BundleEnv, trust: Trust, rows: seq<AuditRow>, currentSeq: int, head: string, records: seq<Record>, id: string)
    requires env.Valid() && rows != [] && records != []
    ensures var b := BundleOf(env, trust, rows, currentSeq, head, records, id);
      FilesMatch(env, b) && ReadRecords(env.rows, b.audit) == Some(rows) && ReadRecords(env.records, b.anchors) == Some(records)
  {
    ReadJoin(env.rows, rows);
    ReadJoin(env.records, records);
    JoinNotEmpty(env.rows, rows);
    JoinNotEmpty(env.records, records);
  }

  lemma SnapshotInRange(env: Env, rows: seq<AuditRow>, chainId: string)
    requires ChainOk(env, rows) && Numbered(rows) && rows != []
    ensures RangeOk(
      ChainRange(chainId, rows[0].seqNo, rows[|rows| - 1].seqNo, |rows|, rows[0].prevHash, rows[|rows| - 1].rowHash),
      rows)
  {
    FirstPrevIsGenesis(env, rows);
  }

  lemma FirstPrevIsGenesis(env: Env, rows: seq<AuditRow>)
    requires ChainOk(env, rows) && rows != []
    ensures rows[0].prevHash == GENESIS
  {
    PrefixChainOk(env, rows, 1);
    assert rows[..1][..0] == [];
  }

  lemma JoinNotEmpty<T(!new)>(codec: Codec<T>, vs: seq<T>)
    requires vs != []
    ensures JoinLines(codec, vs) != []
  {
    assert |Line(codec, vs[|vs| - 1])| > 0;
  }

  /** A bundle consistent under external roots, none of whose anchors is forged, holds
      exactly the true log up to its latest anchor, numbers included, or exhibits a
      collision with it. */
  lemma PassingBundleIsTheTruth(env: BundleEnv, b: Bundle, external: set<string>, events: seq<Event>)
    requires env.Valid() && external != {} && SelfConsistent(env, b, external)
    requires Unforged(env.sink, TrustOf(b.manifest, external), ReadRecords(env.records, b.anchors).value,
                      Run(env.chain, FRESH_WRITER, events).signed)
    ensures var truth, rows := Run(env.chain, FRESH_WRITER, events).log, ReadRecords(env.rows, b.audit).value;
      && |rows| <= |truth|
      && (rows == truth[..|rows|] || CollisionBelow(env.chain, rows, |rows|, truth, |rows|))
  {
    var rows, records := ReadRecords(env.rows, b.audit).value, ReadRecords(env.records, b.anchors).value;
    var view := Snapshot(rows, Some(b.manifest.sinkHead));
    AcceptedLogHoldsTruth(env.chain, env.sink, TrustOf(b.manifest, external), events, view, records);
    RunsAreHonest(env.chain, events);
    var truth := Run(env.chain, FRESH_WRITER, events).log;
    WholeBundleAgrees(env.chain, rows, truth);
  }

  lemma WholeBundleAgrees(env: Env, rows: seq<AuditRow>, truth: seq<AuditRow>)
    requires Numbered(rows) && Numbered(truth) && |rows| <= |truth|
    requires exists p :: 0 < p <= |rows| && rows[p - 1].seqNo == |rows| && PresentsTruth(env, rows, p, truth, |rows|)
    ensures rows == truth[..|rows|] || CollisionBelow(env, rows, |rows|, truth, |rows|)
  {
    assert PresentsTruth(env, rows, |rows|, truth, |rows|);
    assert rows[..|rows|] == rows;
    if FirstDifference(env, rows, truth[..|rows|]).None? {
      forall i | 0 <= i < |rows| ensures rows[i] == truth[..|rows|][i] {
        assert SameEntry(rows[i], truth[..|rows|][i]);
      }
    }
  }
}
