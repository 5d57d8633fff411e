/** Checking a log against its anchors, and what an accepted log must contain. */
module AnchorVerify {
  import opened Common
  import opened HashChain
  import opened AnchorSink

  /** What the verifier reads from the database, in this order, while others may append: the
      number of the head row; the rows it walks to check the chain; the digest recorded for the
      last sink record; the rows among which it then looks up the anchored ones. The chain id
      the database states is part of the `Trust` that sink records are checked against. */
  datatype AuditView = AuditView(head: int, rows: seq<AuditRow>, sinkHead: Option<string>, found: seq<AuditRow>)

  datatype SinkRead = SinkMissing | SinkUnreadable | SinkRecords(records: seq<Record>)

  datatype Cadence = Cadence(interval: real, everyNRows: int)

  datatype Failure =
    | AnchorSinkMissing | AnchorSinkUnhealthy | NoAnchors | DuplicateAnchorId | ReorderedAnchorSeq
    | SinkHeadUnrecorded | SinkRollback | AnchoredRowMissing(id: string) | AnchoredRowHashMismatch(id: string)
    | HeadPrecedesAnchor(id: string)
    | AuditChainInvalid | LatestAnchorStale | PriorAnchorWriteFailed

  datatype Receipt = Receipt(
    chainOk: bool, anchorsOk: bool, current: bool, ok: bool,
    latest: Option<Record>, rowsSince: int, failure: Option<Failure>)

  /** The primary key of the table: numbers are distinct, and rows are read by number. */
  ghost predicate Ordered(rows: seq<AuditRow>) {
    forall i, j :: 0 <= i < j < |rows| ==> rows[i].seqNo < rows[j].seqNo
  }

  function HeadSeq(rows: seq<AuditRow>): int {
    if rows == [] then 0 else rows[|rows| - 1].seqNo
  }

  /** A view read at one instant. */
  function Snapshot(rows: seq<AuditRow>, sinkHead: Option<string>): AuditView {
    AuditView(HeadSeq(rows), rows, sinkHead, rows)
  }

  /** Between the reads of a view the table only grew. */
  ghost predicate ReadInOrder(view: AuditView) {
    Ordered(view.found) && view.rows <= view.found && view.head <= HeadSeq(view.rows)
  }

  /** The row stored under a number, if any. */
  function RowAt(rows: seq<AuditRow>, seqNo: int): Option<AuditRow> {
    if rows == [] then None
    else if rows[|rows| - 1].seqNo == seqNo then Some(rows[|rows| - 1])
    else RowAt(rows[..|rows| - 1], seqNo)
  }

  lemma {:induction false} RowAtFinds(rows: seq<AuditRow>, seqNo: int)
    ensures match RowAt(rows, seqNo)
            case None => forall i :: 0 <= i < |rows| ==> rows[i].seqNo != seqNo
            case Some(row) => exists i :: 0 <= i < |rows| && rows[i] == row && row.seqNo == seqNo
  {
    if rows != [] { RowAtFinds(rows[..|rows| - 1], seqNo); }
  }

  // -- Acceptance ----------------------------------------------------------------------

  ghost predicate AnchorsClimb(anchors: seq<Record>) {
    && (forall i :: 0 <= i < |anchors| ==> anchors[i].Anchor?)
    && (forall i, j :: 0 <= i < j < |anchors| ==>
          anchors[i].anchorId != anchors[j].anchorId && anchors[i].seqNo < anchors[j].seqNo)
    && (anchors != [] ==> anchors[0].seqNo > 0)
  }

  predicate RowMatchesAnchor(rows: seq<AuditRow>, anchor: Record)
    requires anchor.Anchor?
  {
    var row := RowAt(rows, anchor.seqNo);
    row.Some? && row.value.rowHash == anchor.rowHash
  }

  /** What `anchors_ok` claims of a database and a sink. */
  ghost predicate AnchorsAccepted(senv: SinkEnv, trust: Trust, view: AuditView, records: seq<Record>) {
    AnchorsMatch(senv, trust, view, records) && Anchors(records)[|Anchors(records)| - 1].seqNo <= view.head
  }

  /** The same, short of the comparison with the captured head. */
  ghost predicate AnchorsMatch(senv: SinkEnv, trust: Trust, view: AuditView, records: seq<Record>) {
    var anchors := Anchors(records);
    && SinkValid(senv, trust, records) && trust.roots != {}
    && anchors != [] && AnchorsClimb(anchors)
    && HeadMatches(senv, records, view.sinkHead)
    && (forall i :: 0 <= i < |anchors| ==> RowMatchesAnchor(view.found, anchors[i]))
  }

  function Max(a: real, b: real): real { if a < b then b else a }

  /** The time cadence calls for a new anchor: rows are waiting and either limit is reached. */
  predicate Due(rowsSince: int, createdAt: int, now: real, cadence: Cadence) {
    rowsSince > 0 &&
    (rowsSince >= cadence.everyNRows || Max(0.0, now - createdAt as real / 1000000.0) >= cadence.interval)
  }

  lemma {:induction false} AnchorsAreAnchors(records: seq<Record>)
    ensures forall i :: 0 <= i < |Anchors(records)| ==> Anchors(records)[i].Anchor? && Anchors(records)[i] in records
  {
    forall i | 0 <= i < |Anchors(records)|
      ensures Anchors(records)[i].Anchor? && Anchors(records)[i] in records
    {
      assert Anchors(records)[i] in Anchors(records);
    }
  }

  /** Every branch of the verifier, in its order. */
  method VerifyChainAgainstAnchors(
    env: Env, senv: SinkEnv, trust: Trust, view: AuditView, sink: SinkRead,
    cadence: Cadence, now: real, priorFailure: bool) returns (receipt: Receipt)
    ensures receipt.chainOk <==> ChainOk(env, view.rows)
    ensures receipt.anchorsOk <==> sink.SinkRecords? && AnchorsAccepted(senv, trust, view, sink.records)
    ensures receipt.anchorsOk ==> forall r :: r in sink.records ==> Authentic(senv, trust, r)
    ensures receipt.anchorsOk ==>
      && receipt.latest == Some(Anchors(sink.records)[|Anchors(sink.records)| - 1])
      && receipt.rowsSince == view.head - receipt.latest.value.seqNo >= 0
      && receipt.latest.value.signed.createdAt.Some?
      && (receipt.current <==>
            || receipt.rowsSince == 0
            || (receipt.rowsSince < cadence.everyNRows && 0.0 < cadence.interval
                && now - receipt.latest.value.signed.createdAt.value as real / 1000000.0 < cadence.interval))
    ensures receipt.ok <==> receipt.chainOk && receipt.anchorsOk && receipt.current && !priorFailure
    ensures receipt.failure.None? <==> receipt.ok
    ensures receipt.anchorsOk ==>
      receipt.failure == (if !receipt.chainOk then Some(AuditChainInvalid)
                          else if !receipt.current then Some(LatestAnchorStale)
                          else if priorFailure then Some(PriorAnchorWriteFailed) else None)
    ensures receipt.failure.Some? && receipt.failure.value.HeadPrecedesAnchor? <==>
      && sink.SinkRecords? && AnchorsMatch(senv, trust, view, sink.records)
      && !AnchorsAccepted(senv, trust, view, sink.records)
  {
    var chainOk := VerifyChain(env, view.rows);
    var base := Receipt(chainOk, false, false, false, None, view.head, None);
    var mismatch := CheckSink(senv, trust, view, sink);
    if mismatch.Some? {
      return base.(failure := mismatch);
    }
    MatchingAnchorIsDated(senv, trust, view, sink.records);
    var latest := Anchors(sink.records)[|Anchors(sink.records)| - 1];
    if view.head < latest.seqNo {
      return base.(failure := Some(HeadPrecedesAnchor(latest.anchorId)));
    }
    var rowsSince := view.head - latest.seqNo;
    var due := Due(rowsSince, latest.signed.createdAt.value, now, cadence);
    var ok := chainOk && !due && !priorFailure;
    var failure :=
      if !chainOk then Some(AuditChainInvalid)
      else if due then Some(LatestAnchorStale)
      else if priorFailure then Some(PriorAnchorWriteFailed)
      else None;
    return Receipt(chainOk, true, !due, ok, Some(latest), rowsSince, failure);
  }

  lemma MatchingAnchorIsDated(senv: SinkEnv, trust: Trust, view: AuditView, records: seq<Record>)
    requires AnchorsMatch(senv, trust, view, records)
    ensures var latest := Anchors(records)[|Anchors(records)| - 1];
      latest.Anchor? && latest.signed.createdAt.Some?
  {
    AnchorsAreAnchors(records);
    assert RecordOk(senv, trust, Anchors(records)[|Anchors(records)| - 1]);
  }

  /** A readable sink of valid records. */
  ghost predicate Trusted(senv: SinkEnv, trust: Trust, sink: SinkRead) {
    sink.SinkRecords? && trust.roots != {} && SinkValid(senv, trust, sink.records)
  }

  /** A trusted sink with anchors in order. */
  ghost predicate Climbing(senv: SinkEnv, trust: Trust, sink: SinkRead) {
    Trusted(senv, trust, sink) && Anchors(sink.records) != [] && AnchorsClimb(Anchors(sink.records))
  }

  /** Everything that is checked of the sink before its latest anchor meets the captured head. */
  method CheckSink(senv: SinkEnv, trust: Trust, view: AuditView, sink: SinkRead) returns (failure: Option<Failure>)
    ensures failure.None? <==> sink.SinkRecords? && AnchorsMatch(senv, trust, view, sink.records)
    ensures failure.None? ==> forall r :: r in sink.records ==> Authentic(senv, trust, r)
    ensures failure == Some(AnchorSinkMissing) <==> sink.SinkMissing?
    ensures failure == Some(AnchorSinkUnhealthy) <==>
      sink.SinkUnreadable? || (sink.SinkRecords? && (trust.roots == {} || !SinkValid(senv, trust, sink.records)))
    ensures failure == Some(NoAnchors) <==> Trusted(senv, trust, sink) && Anchors(sink.records) == []
    ensures failure == Some(DuplicateAnchorId) || failure == Some(ReorderedAnchorSeq) <==>
      Trusted(senv, trust, sink) && Anchors(sink.records) != [] && !AnchorsClimb(Anchors(sink.records))
    ensures failure == Some(SinkHeadUnrecorded) <==> Climbing(senv, trust, sink) && view.sinkHead.None?
    ensures failure == Some(SinkRollback) <==>
      Climbing(senv, trust, sink) && view.sinkHead.Some? && view.sinkHead != RecordedHead(senv, sink.records)
    ensures failure.Some? ==> !failure.value.HeadPrecedesAnchor?
  {
    if sink.SinkMissing? {
      return Some(AnchorSinkMissing);
    }
    if sink.SinkUnreadable? || trust.roots == {} {
      return Some(AnchorSinkUnhealthy);
    }
    var records := sink.records;
    var valid := ValidateSinkRecords(senv, trust, records);
    if !valid {
      return Some(AnchorSinkUnhealthy);
    }
    var anchors := Anchors(records);
    AnchorsAreAnchors(records);
    if anchors == [] {
      return Some(NoAnchors);
    }
    var order := CheckAnchorOrder(anchors);
    if order.Some? {
      return order;
    }
    if view.sinkHead.None? {
      return Some(SinkHeadUnrecorded);
    }
    if view.sinkHead.value != RecordDigest(senv, records[|records| - 1]) {
      return Some(SinkRollback);
    }
    failure := CheckAnchoredRows(view.found, anchors);
  }

  method CheckAnchorOrder(anchors: seq<Record>) returns (failure: Option<Failure>)
    requires forall i :: 0 <= i < |anchors| ==> anchors[i].Anchor?
    ensures failure.None? <==> AnchorsClimb(anchors)
    ensures failure.Some? ==> failure.value.DuplicateAnchorId? || failure.value.ReorderedAnchorSeq?
  {
    var previousSeq := 0;
    var seenIds: set<string> := {};
    for i := 0 to |anchors|
      invariant AnchorsClimb(anchors[..i])
      invariant previousSeq == if i == 0 then 0 else anchors[i - 1].seqNo
      invariant previousSeq >= 0
      invariant seenIds == set k | 0 <= k < i :: anchors[k].anchorId
    {
      var record := anchors[i];
      if record.anchorId in seenIds {
        return Some(DuplicateAnchorId);
      }
      seenIds := seenIds + {record.anchorId};
      if record.seqNo <= previousSeq {
        assert i > 0 ==> anchors[i - 1].seqNo >= anchors[i].seqNo;
        return Some(ReorderedAnchorSeq);
      }
      previousSeq := record.seqNo;
    }
    assert anchors[..|anchors|] == anchors;
    return None;
  }

  method CheckAnchoredRows(rows: seq<AuditRow>, anchors: seq<Record>) returns (failure: Option<Failure>)
    requires forall i :: 0 <= i < |anchors| ==> anchors[i].Anchor?
    ensures failure.None? <==> forall i :: 0 <= i < |anchors| ==> RowMatchesAnchor(rows, anchors[i])
    ensures failure.Some? ==> failure.value.AnchoredRowMissing? || failure.value.AnchoredRowHashMismatch?
  {
    for i := 0 to |anchors|
      invariant forall k :: 0 <= k < i ==> RowMatchesAnchor(rows, anchors[k])
    {
      var row := RowAt(rows, anchors[i].seqNo);
      if row.None? {
        return Some(AnchoredRowMissing(anchors[i].anchorId));
      }
      if row.value.rowHash != anchors[i].rowHash {
        return Some(AnchoredRowHashMismatch(anchors[i].anchorId));
      }
    }
    return None;
  }

  /** A sink cut back to a proper prefix is refused, whatever rows are presented, as long as the
      database still records the full sink's last record; or two encodings share a digest. */
  lemma RollbackIsReported(senv: SinkEnv, trust: Trust, view: AuditView, records: seq<Record>, kept: seq<Record>)
    requires senv.Valid() && Orderly(records) && kept < records
    requires view.sinkHead == RecordedHead(senv, records)
    ensures AnchorsAccepted(senv, trust, view, kept) ==> LastRecordsCollide(senv, kept, records)
  {
    if AnchorsAccepted(senv, trust, view, kept) { RollbackIsCaught(senv, records, kept); }
  }

  // -- The honest writer -------------------------------------------------------------------

  /** A store whose log grows by the append paths only, and every anchor its writer signed. */
  datatype Writer = Writer(log: seq<AuditRow>, signed: set<Record>)

  datatype Event =
    | AppendRow(ts: Instant, display: Display, detail: string)
    | SignAnchor(record: Record, captured: nat)

  /** An anchor names some head the log has had: the head is captured first, and rows
      may be appended by others before the record is signed and written. */
  predicate SignsCapturedHead(w: Writer, record: Record, captured: nat) {
    && record.Anchor? && 0 < captured <= |w.log|
    && record.seqNo == w.log[captured - 1].seqNo
    && record.rowHash == w.log[captured - 1].rowHash
  }

  function After(env: Env, w: Writer, e: Event): Writer {
    match e
    case AppendRow(ts, d, detail) => w.(log := w.log + [NextRow(env, w.log, ts, d, env.write(d, detail))])
    case SignAnchor(record, captured) =>
      if SignsCapturedHead(w, record, captured) then w.(signed := w.signed + {record}) else w
  }

  function Run(env: Env, w: Writer, events: seq<Event>): Writer {
    if events == [] then w else After(env, Run(env, w, events[..|events| - 1]), events[|events| - 1])
  }

  const FRESH_WRITER := Writer([], {})

  ghost predicate Honest(env: Env, w: Writer) {
    && LogOk(env, w.log)
    && forall r :: r in w.signed ==>
         r.Anchor? && 0 < r.seqNo <= |w.log| && r.rowHash == w.log[r.seqNo - 1].rowHash
  }

  lemma {:induction false} RunsAreHonest(env: Env, events: seq<Event>)
    requires env.Valid()
    ensures Honest(env, Run(env, FRESH_WRITER, events))
  {
    if events != [] {
      RunsAreHonest(env, events[..|events| - 1]);
      var w := Run(env, FRESH_WRITER, events[..|events| - 1]);
      match events[|events| - 1]
      case AppendRow(ts, d, detail) => AppendKeepsLog(env, w.log, ts, d, env.write(d, detail));
      case SignAnchor(_, _) =>
    }
  }

  // -- What an accepted log contains -------------------------------------------------------

  /** Signatures cannot be forged: an anchor of this chain and sink whose signature verifies
      under a pinned root was signed by the writer. */
  ghost predicate Unforged(senv: SinkEnv, trust: Trust, records: seq<Record>, signed: set<Record>) {
    forall r :: r in records && r.Anchor? && Authentic(senv, trust, r) ==> r in signed
  }

  /** The first `p` presented rows are the first `n` true rows, in place and in every
      hash-bound field, or the walk back over both exhibits a collision. */
  ghost predicate PresentsTruth(env: Env, rows: seq<AuditRow>, p: nat, truth: seq<AuditRow>, n: nat)
    requires p <= |rows| && n <= |truth|
  {
    SameOrCollision(env, rows[..p], truth[..n])
  }

  /** Whatever was done to the database and the sink before the verifier came, if it reports a
      valid chain and accepted anchors then the log it walked starts with the true log up to the
      latest anchor, in place and number, or the two logs exhibit a hash collision. Rows appended
      while it reads do not matter: an anchor above the walked rows is above the captured head. */
  lemma AcceptedLogHoldsTruth(
    env: Env, senv: SinkEnv, trust: Trust, events: seq<Event>, view: AuditView, records: seq<Record>)
    requires env.Valid() && ReadInOrder(view)
    requires Unforged(senv, trust, records, Run(env, FRESH_WRITER, events).signed)
    requires ChainOk(env, view.rows) && AnchorsAccepted(senv, trust, view, records)
    ensures var truth, n := Run(env, FRESH_WRITER, events).log, LatestSeq(records);
      && 0 < n <= |truth|
      && exists p :: 0 < p <= |view.rows| && view.rows[p - 1].seqNo == n
                     && PresentsTruth(env, view.rows, p, truth, n)
  {
    RunsAreHonest(env, events);
    var w := Run(env, FRESH_WRITER, events);
    var i := AnchoredPosition(senv, trust, view, records);
    AnchoredPrefixIsTrue(env, w, view.rows, i, LatestAnchor(records).value);
    assert view.rows[(i + 1) - 1].seqNo == LatestSeq(records);
  }

  lemma AnchoredPrefixIsTrue(env: Env, w: Writer, rows: seq<AuditRow>, i: nat, anchor: Record)
    requires env.Valid() && Honest(env, w) && anchor in w.signed && anchor.Anchor? && ChainOk(env, rows)
    requires i < |rows| && rows[i].seqNo == anchor.seqNo && rows[i].rowHash == anchor.rowHash
    ensures 0 < anchor.seqNo <= |w.log| && PresentsTruth(env, rows, i + 1, w.log, anchor.seqNo)
  {
    SignedRowIsTrue(env, w, anchor);
    PrefixesAgree(env, rows, i + 1, w.log, anchor.seqNo);
  }

  lemma SignedRowIsTrue(env: Env, w: Writer, record: Record)
    requires Honest(env, w) && record in w.signed
    ensures record.Anchor? && 0 < record.seqNo <= |w.log| && record.rowHash == w.log[record.seqNo - 1].rowHash
    ensures ChainOk(env, w.log)
  {
  }

  /** The place, among the walked rows, of the row that the latest accepted anchor names. */
  lemma AnchoredPosition(senv: SinkEnv, trust: Trust, view: AuditView, records: seq<Record>) returns (i: nat)
    requires ReadInOrder(view) && AnchorsAccepted(senv, trust, view, records)
    ensures LatestAnchor(records).Some? && LatestAnchor(records).value in records
    ensures RecordOk(senv, trust, LatestAnchor(records).value)
    ensures i < |view.rows| && view.rows[i].seqNo == LatestSeq(records)
    ensures view.rows[i].rowHash == LatestAnchor(records).value.rowHash
  {
    LatestAnchorIsLast(records);
    AnchorsAreAnchors(records);
    var latest := LatestAnchor(records).value;
    assert RowMatchesAnchor(view.found, latest);
    RowAtFinds(view.found, latest.seqNo);
    i :| 0 <= i < |view.found| && view.found[i] == RowAt(view.found, latest.seqNo).value;
    assert view.rows != [];
    assert view.found[i].seqNo <= view.found[|view.rows| - 1].seqNo;
    assert view.found[i] == view.rows[i];
  }

  lemma PrefixesAgree(env: Env, rows: seq<AuditRow>, p: nat, truth: seq<AuditRow>, n: nat)
    requires env.Valid() && ChainOk(env, rows) && ChainOk(env, truth)
    requires 0 < p <= |rows| && 0 < n <= |truth| && rows[p - 1].rowHash == truth[n - 1].rowHash
    ensures PresentsTruth(env, rows, p, truth, n)
  {
    PrefixChainOk(env, rows, p);
    PrefixChainOk(env, truth, n);
    assert Head(rows[..p]) == Head(truth[..n]);
    SameHeadSameHistory(env, rows[..p], truth[..n]);
  }

  function LatestSeq(records: seq<Record>): int {
    var latest := LatestAnchor(records);
    if latest.None? then 0 else latest.value.seqNo
  }

  lemma {:induction false} LatestAnchorIsLast(records: seq<Record>)
    ensures LatestAnchor(records) ==
      if Anchors(records) == [] then None else Some(Anchors(records)[|Anchors(records)| - 1])
  {
    if records != [] {
      var before, last := records[..|records| - 1], records[|records| - 1];
      assert records == before + [last];
      FilterAppend(before, [last], (r: Record) => r.Anchor?);
      LatestAnchorIsLast(before);
    }
  }

  /** Hence an edit or removal at or below the latest anchor is reported: if row `k` of
      the true log is missing from its place or differs there in any hash-bound field,
      the anchors are refused, or the presented log exhibits a collision with the true one. */
  lemma TamperingIsReported(
    env: Env, senv: SinkEnv, trust: Trust, events: seq<Event>, view: AuditView, records: seq<Record>, k: nat)
    requires env.Valid() && ReadInOrder(view) && ChainOk(env, view.rows)
    requires Unforged(senv, trust, records, Run(env, FRESH_WRITER, events).signed)
    requires var truth := Run(env, FRESH_WRITER, events).log;
      k < LatestSeq(records) && k < |truth| && (k >= |view.rows| || !SameEntry(view.rows[k], truth[k]))
    ensures AnchorsAccepted(senv, trust, view, records) ==>
      var truth, n := Run(env, FRESH_WRITER, events).log, LatestSeq(records);
      && n <= |truth|
      && exists p :: 0 <= p <= |view.rows| && CollisionBelow(env, view.rows, p, truth, n)
  {
    if AnchorsAccepted(senv, trust, view, records) {
      AcceptedLogHoldsTruth(env, senv, trust, events, view, records);
      var truth, n := Run(env, FRESH_WRITER, events).log, LatestSeq(records);
      var p :| 0 < p <= |view.rows| && PresentsTruth(env, view.rows, p, truth, n);
      DifferenceCollides(env, view.rows, p, truth, n, k);
    }
  }

  ghost predicate CollisionBelow(env: Env, rows: seq<AuditRow>, p: nat, truth: seq<AuditRow>, n: nat)
    requires p <= |rows| && n <= |truth|
  {
    var pair := FirstDifference(env, rows[..p], truth[..n]);
    pair.Some? && Collides(env, pair.value)
  }

  lemma DifferenceCollides(env: Env, rows: seq<AuditRow>, p: nat, truth: seq<AuditRow>, n: nat, k: nat)
    requires p <= |rows| && k < n <= |truth| && PresentsTruth(env, rows, p, truth, n)
    requires k >= |rows| || !SameEntry(rows[k], truth[k])
    ensures CollisionBelow(env, rows, p, truth, n)
  {
    OneEntryDiffers(rows, p, truth, n, k);
  }

  lemma OneEntryDiffers(rows: seq<AuditRow>, p: nat, truth: seq<AuditRow>, n: nat, k: nat)
    requires p <= |rows| && k < n <= |truth| && (k >= |rows| || !SameEntry(rows[k], truth[k]))
    ensures !SameEntries(rows[..p], truth[..n])
  {
    if p == n { assert !SameEntry(rows[..p][k], truth[..n][k]); }
  }

  // -- What an honest log shows ------------------------------------------------------------

  /** Records appended to the sink so far: valid, signed by the writer if anchors, and never
      two with one random id. */
  ghost predicate HonestAppends(senv: SinkEnv, trust: Trust, signed: set<Record>, incoming: seq<Record>) {
    && (forall i :: 0 <= i < |incoming| ==> RecordOk(senv, trust, incoming[i]))
    && (forall i :: 0 <= i < |incoming| && incoming[i].Anchor? ==> incoming[i] in signed)
    && (forall i, j :: 0 <= i < j < |incoming| && incoming[i].Anchor? && incoming[j].Anchor? ==>
          incoming[i].anchorId != incoming[j].anchorId)
    && (forall i, j :: 0 <= i < j < |incoming| && incoming[i].Pin? && incoming[j].Pin? ==>
          incoming[i].pinId != incoming[j].pinId)
  }

  /** Anchor numbers are positive and climb along the sink, and anchor ids are distinct. */
  ghost predicate SinkClimbs(records: seq<Record>) {
    && (forall i :: 0 <= i < |records| && records[i].Anchor? ==> records[i].seqNo > 0)
    && forall i, j :: 0 <= i < j < |records| && records[i].Anchor? && records[j].Anchor? ==>
      records[i].anchorId != records[j].anchorId && records[i].seqNo < records[j].seqNo
  }

  lemma HonestSink(senv: SinkEnv, trust: Trust, signed: set<Record>, incoming: seq<Record>)
    requires HonestAppends(senv, trust, signed, incoming)
    ensures var records := AppendAll([], incoming);
      && SinkValid(senv, trust, records) && SinkClimbs(records)
      && forall r :: r in records && r.Anchor? ==> r in signed
  {
    EveryRunGrowsOrderly([], incoming);
    var records := AppendAll([], incoming);
    forall i, j | 0 <= i < j < |records|
      ensures records[i].Anchor? && records[j].Anchor? ==> records[i].anchorId != records[j].anchorId
      ensures records[i].Pin? && records[j].Pin? ==> records[i].pinId != records[j].pinId
    {
      assert records[i] in incoming && records[j] in incoming;
    }
    forall i | 0 <= i < |records| ensures RecordOk(senv, trust, records[i]) { assert records[i] in incoming; }
  }

  lemma ClimbingAppend(anchors: seq<Record>, record: Record)
    requires record.Anchor? && record.seqNo > 0 && forall i :: 0 <= i < |anchors| ==> anchors[i].Anchor?
    ensures AnchorsClimb(anchors + [record]) <==>
      && AnchorsClimb(anchors) && (anchors != [] ==> anchors[|anchors| - 1].seqNo < record.seqNo)
      && (forall i :: 0 <= i < |anchors| ==> anchors[i].anchorId != record.anchorId)
  {
    var more := anchors + [record];
    assert more[|anchors|] == record && forall i :: 0 <= i < |anchors| ==> more[i] == anchors[i];
  }

  lemma {:induction false} ClimbingSinkClimbingAnchors(records: seq<Record>)
    requires SinkClimbs(records)
    ensures AnchorsClimb(Anchors(records))
  {
    if records != [] {
      var before, last := records[..|records| - 1], records[|records| - 1];
      assert records == before + [last];
      ClimbingSinkClimbingAnchors(before);
      OneMoreClimbs(before, last);
    }
  }

  lemma OneMoreClimbs(before: seq<Record>, last: Record)
    requires SinkClimbs(before + [last]) && AnchorsClimb(Anchors(before))
    ensures AnchorsClimb(Anchors(before + [last]))
  {
    FilterAppend(before, [last], (r: Record) => r.Anchor?);
    if last.Anchor? {
      assert (before + [last])[|before|] == last;
      EarlierAnchorsAreLower(before, last);
      ClimbingAppend(Anchors(before), last);
      assert Anchors([last]) == [last];
    } else {
      FilterNone([last], (r: Record) => r.Anchor?);
      assert Anchors(before + [last]) == Anchors(before);
    }
  }

  lemma EarlierAnchorsAreLower(before: seq<Record>, last: Record)
    requires last.Anchor? && SinkClimbs(before + [last])
    ensures forall i :: 0 <= i < |Anchors(before)| ==>
      Anchors(before)[i].Anchor? && Anchors(before)[i].anchorId != last.anchorId && Anchors(before)[i].seqNo < last.seqNo
  {
    AnchorsAreAnchors(before);
    forall i | 0 <= i < |Anchors(before)|
      ensures Anchors(before)[i].anchorId != last.anchorId && Anchors(before)[i].seqNo < last.seqNo
    {
      var k :| 0 <= k < |before| && before[k] == Anchors(before)[i];
      assert (before + [last])[k] == before[k] && (before + [last])[|before|] == last;
    }
  }

  /** A row of a numbered log is found under its number in every prefix that holds it. */
  lemma NumberedRowIsFound(rows: seq<AuditRow>, truth: seq<AuditRow>, anchor: Record)
    requires Numbered(truth) && rows <= truth && anchor.Anchor?
    requires 0 < anchor.seqNo <= |rows| && anchor.rowHash == truth[anchor.seqNo - 1].rowHash
    ensures RowMatchesAnchor(rows, anchor)
  {
    RowAtFinds(rows, anchor.seqNo);
    assert rows[anchor.seqNo - 1].seqNo == anchor.seqNo;
  }

  lemma HonestAnchorsAreLogged(env: Env, senv: SinkEnv, trust: Trust, events: seq<Event>, incoming: seq<Record>)
    requires env.Valid()
    requires HonestAppends(senv, trust, Run(env, FRESH_WRITER, events).signed, incoming)
    requires Anchors(AppendAll([], incoming)) != []
    ensures 0 < LatestSeq(AppendAll([], incoming)) <= |Run(env, FRESH_WRITER, events).log|
    ensures trust.roots != {}
  {
    var records, w := AppendAll([], incoming), Run(env, FRESH_WRITER, events);
    RunsAreHonest(env, events);
    HonestSink(senv, trust, w.signed, incoming);
    AnchorsAreAnchors(records);
    LatestAnchorIsLast(records);
    assert RecordOk(senv, trust, LatestAnchor(records).value);
  }

  /** A view of a log that was read while others appended to it: `a`, `b` and `c` rows stood
      there when the head was captured, the chain walked and the anchored rows looked up. */
  function Growing(log: seq<AuditRow>, a: nat, b: nat, c: nat, sinkHead: Option<string>): AuditView
    requires a <= b <= c <= |log|
  {
    AuditView(a, log[..b], sinkHead, log[..c])
  }

  lemma GrowingIsInOrder(log: seq<AuditRow>, a: nat, b: nat, c: nat, sinkHead: Option<string>)
    requires Numbered(log) && a <= b <= c <= |log|
    ensures ReadInOrder(Growing(log, a, b, c, sinkHead))
  {
  }

  /** Every anchor an honest writer signed is found in each prefix that reaches the latest one. */
  lemma SignedAnchorsAreFound(env: Env, w: Writer, records: seq<Record>, c: nat)
    requires Honest(env, w) && (forall r :: r in records && r.Anchor? ==> r in w.signed)
    requires AnchorsClimb(Anchors(records)) && LatestSeq(records) <= c <= |w.log|
    ensures forall i :: 0 <= i < |Anchors(records)| ==> RowMatchesAnchor(w.log[..c], Anchors(records)[i])
  {
    AnchorsAreAnchors(records);
    LatestAnchorIsLast(records);
    var anchors := Anchors(records);
    forall i | 0 <= i < |anchors| ensures RowMatchesAnchor(w.log[..c], anchors[i]) {
      assert anchors[i].seqNo <= anchors[|anchors| - 1].seqNo;
      NumberedRowIsFound(w.log[..c], w.log, anchors[i]);
    }
  }

  /** A sink in step whose anchors are found in the log matches; acceptance is left to the head. */
  lemma AcceptedIffBelowHead(senv: SinkEnv, trust: Trust, view: AuditView, records: seq<Record>)
    requires SinkValid(senv, trust, records) && trust.roots != {} && Anchors(records) != []
    requires AnchorsClimb(Anchors(records)) && view.sinkHead == RecordedHead(senv, records)
    requires forall i :: 0 <= i < |Anchors(records)| ==> RowMatchesAnchor(view.found, Anchors(records)[i])
    ensures AnchorsMatch(senv, trust, view, records)
    ensures AnchorsAccepted(senv, trust, view, records) <==> LatestSeq(records) <= view.head
  {
    LatestAnchorIsLast(records);
    assert records != [];
  }

  /** An honest log with its own sink, read while others append to both, has a valid chain and
      matching anchors; the anchors are accepted exactly when none lies above the captured head. */
  lemma HonestLogAcceptedIff(
    env: Env, senv: SinkEnv, trust: Trust, events: seq<Event>, incoming: seq<Record>, a: nat, b: nat, c: nat)
    requires env.Valid()
    requires HonestAppends(senv, trust, Run(env, FRESH_WRITER, events).signed, incoming)
    requires var records, log := AppendAll([], incoming), Run(env, FRESH_WRITER, events).log;
      Anchors(records) != [] && a <= b <= c <= |log| && LatestSeq(records) <= c
    ensures Unforged(senv, trust, AppendAll([], incoming), Run(env, FRESH_WRITER, events).signed)
    ensures var records, log := AppendAll([], incoming), Run(env, FRESH_WRITER, events).log;
      var view := Growing(log, a, b, c, RecordedHead(senv, records));
      && ReadInOrder(view) && ChainOk(env, view.rows) && AnchorsMatch(senv, trust, view, records)
      && (AnchorsAccepted(senv, trust, view, records) <==> LatestSeq(records) <= a)
  {
    var records, w := AppendAll([], incoming), Run(env, FRESH_WRITER, events);
    RunsAreHonest(env, events);
    PrefixChainOk(env, w.log, b);
    GrowingIsInOrder(w.log, a, b, c, RecordedHead(senv, records));
    HonestAnchorsAreLogged(env, senv, trust, events, incoming);
    HonestSink(senv, trust, w.signed, incoming);
    ClimbingSinkClimbingAnchors(records);
    SignedAnchorsAreFound(env, w, records, c);
    AcceptedIffBelowHead(senv, trust, Growing(w.log, a, b, c, RecordedHead(senv, records)), records);
  }
}
