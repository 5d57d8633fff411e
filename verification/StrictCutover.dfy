/** The two-phase strict cutover: seal one exact snapshot, then activate it only if
    nothing was written in between. */
module StrictCutover {
  import opened Common
  import opened HashChain

  const STORE_GLOBAL := "store-global"
  const SEALED := "strict_cutover_sealed"
  const ACTIVATED := "strict_cutover_activated"

  datatype Snapshot = Snapshot(
    headSeq: nat, headHash: string, headPrev: Option<string>, rowCount: nat, reportDigest: string)

  /** The signed manifest, reduced to the fields the transitions bind. */
  datatype Manifest = Manifest(id: string, chainId: string, producer: string, snapshot: Snapshot)

  /** The detail objects of the two transition rows. */
  datatype Detail =
    | SealDetail(
        manifestId: string, manifestDigest: string, reportDigest: string,
        preSealSeq: nat, preSealHash: string, rowCount: nat)
    | ActivationDetail(
        manifestId: string, manifestDigest: string, sealSeq: int, sealRowHash: string, sealPrevHash: string)

  /** The chain's foreign functions, the canonical body writer of the transitions and
      the text of a detail object, with its reader. */
  datatype CutoverEnv = CutoverEnv(
    chain: Env, canonical: (Display, string) -> string,
    detailText: Detail -> string, readDetail: string -> Option<Detail>)
  {
    ghost predicate Valid() {
      && chain.Valid()
      && (forall d, text :: chain.parse(canonical(d, text)) == Some(Payload(Some(d), text)))
      && (forall detail :: readDetail(detailText(detail)) == Some(detail))
    }
  }

  /** The audit log and the ids of the stored memories. The last two fields are
      history: the ids present when a manifest was sealed and when it was activated. */
  datatype Store = Store(
    chainId: string, log: seq<AuditRow>, ids: set<string>,
    sealedIds: map<string, set<string>>, activeIds: map<string, set<string>>)

  function EmptyStore(chainId: string): Store {
    Store(chainId, [], {}, map[], map[])
  }

  function HeadPrev(log: seq<AuditRow>): Option<string> {
    if log == [] then None else Some(log[|log| - 1].prevHash)
  }

  function SnapshotOf(s: Store, reportDigest: string): Snapshot {
    Snapshot(|s.log|, Head(s.log), HeadPrev(s.log), |s.ids|, reportDigest)
  }

  // -- Validation -----------------------------------------------------------------

  function TransitionsOf(log: seq<AuditRow>, id: string, action: string): seq<AuditRow> {
    Filter(log, (row: AuditRow) => row.display.target == id && row.display.action == action)
  }

  /** The detail of a row whose body is canonical and repeats its columns. */
  function AuditDetail(env: CutoverEnv, row: AuditRow): Option<string> {
    var payload := env.chain.parse(row.body);
    if payload.Some? && payload.value.display == Some(row.display)
       && row.body == env.canonical(row.display, payload.value.detail)
    then Some(payload.value.detail) else None
  }

  predicate RowHashOk(env: CutoverEnv, row: AuditRow) {
    row.rowHash == env.chain.hash(Preimage(env.chain, row.prevHash, row.body, row.ts))
  }

  function ExpectedSeal(m: Manifest, digest: string): Detail {
    SealDetail(m.id, digest, m.snapshot.reportDigest, m.snapshot.headSeq, m.snapshot.headHash, m.snapshot.rowCount)
  }

  function ExpectedActivation(m: Manifest, digest: string, seal: AuditRow): Detail {
    ActivationDetail(m.id, digest, seal.seqNo, seal.rowHash, seal.prevHash)
  }

  predicate PreSealHeadOk(log: seq<AuditRow>, snapshot: Snapshot) {
    if snapshot.headSeq == 0 then snapshot.headHash == GENESIS && snapshot.headPrev.None?
    else
      && snapshot.headSeq <= |log|
      && log[snapshot.headSeq - 1].rowHash == snapshot.headHash
      && Some(log[snapshot.headSeq - 1].prevHash) == snapshot.headPrev
  }

  predicate SealBinds(env: CutoverEnv, log: seq<AuditRow>, m: Manifest, digest: string, seal: AuditRow) {
    && seal.display.tenant == STORE_GLOBAL && seal.display.principal == m.producer
    && seal.seqNo == m.snapshot.headSeq + 1 && seal.prevHash == m.snapshot.headHash
    && PreSealHeadOk(log, m.snapshot)
    && RowHashOk(env, seal)
    && AuditDetail(env, seal) == Some(env.detailText(ExpectedSeal(m, digest)))
  }

  predicate ActivationBinds(env: CutoverEnv, m: Manifest, digest: string, seal: AuditRow, activation: AuditRow) {
    && activation.display.tenant == STORE_GLOBAL
    && activation.seqNo == seal.seqNo + 1 && activation.prevHash == seal.rowHash
    && RowHashOk(env, activation)
    && AuditDetail(env, activation) == Some(env.detailText(ExpectedActivation(m, digest, seal)))
  }

  datatype Transitions = Transitions(seal: AuditRow, activation: Option<AuditRow>)

  /** The transitions of a manifest, or None when the store refuses it. */
  function ValidateSeal(env: CutoverEnv, s: Store, m: Manifest, digest: string): Option<Transitions> {
    var seals, activations := TransitionsOf(s.log, m.id, SEALED), TransitionsOf(s.log, m.id, ACTIVATED);
    if s.chainId != m.chainId || !ChainOk(env.chain, s.log) || |seals| != 1 || |activations| > 1 then None
    else if !SealBinds(env, s.log, m, digest, seals[0]) then None
    else if activations == [] then Some(Transitions(seals[0], None))
    else if !ActivationBinds(env, m, digest, seals[0], activations[0]) then None
    else Some(Transitions(seals[0], Some(activations[0])))
  }

  // -- Transactions ------------------------------------------------------------------

  /** What the sealing scan reports of the rows it classified. */
  datatype SealingScan = SealingScan(reportDigest: string, failures: nat)

  datatype Event =
    | Remember(id: string, ts: Instant, display: Display, detail: string)
    | Remove(gone: set<string>)
    | Audit(ts: Instant, display: Display, detail: string)
    | Seal(ts: Instant, operator: string, manifestId: string, digest: string, scan: SealingScan, approved: string)
    | Activate(ts: Instant, operator: string, manifest: Manifest, digest: string)

  function Appended(env: CutoverEnv, s: Store, ts: Instant, d: Display, body: string): Store {
    s.(log := s.log + [NextRow(env.chain, s.log, ts, d, body)])
  }

  predicate IsTransition(d: Display) {
    d.action == SEALED || d.action == ACTIVATED
  }

  predicate CanSeal(env: CutoverEnv, s: Store, scan: SealingScan, approved: string) {
    scan.reportDigest == approved && scan.failures == 0 && ChainOk(env.chain, s.log)
  }

  function ManifestOf(s: Store, operator: string, manifestId: string, scan: SealingScan): Manifest {
    Manifest(manifestId, s.chainId, operator, SnapshotOf(s, scan.reportDigest))
  }

  function SealStore(env: CutoverEnv, s: Store, ts: Instant, operator: string, id: string, digest: string, scan: SealingScan): Store {
    var m := ManifestOf(s, operator, id, scan);
    var d := Display(STORE_GLOBAL, operator, SEALED, id);
    Appended(env, s, ts, d, env.canonical(d, env.detailText(ExpectedSeal(m, digest))))
      .(sealedIds := s.sealedIds[id := s.ids])
  }

  datatype Outcome = Refused | AlreadyActive | Active

  function ActivationOutcome(env: CutoverEnv, s: Store, m: Manifest, digest: string): Outcome {
    var t := ValidateSeal(env, s, m, digest);
    if t.None? then Refused
    else if t.value.activation.Some? then AlreadyActive
    else if |s.log| != t.value.seal.seqNo || Head(s.log) != t.value.seal.rowHash
         || HeadPrev(s.log) != Some(t.value.seal.prevHash) then Refused
    else if |s.ids| != m.snapshot.rowCount then Refused
    else Active
  }

  function ActivateStore(env: CutoverEnv, s: Store, ts: Instant, operator: string, m: Manifest, digest: string): Store {
    if ActivationOutcome(env, s, m, digest).Active? then
      var seal := ValidateSeal(env, s, m, digest).value.seal;
      var d := Display(STORE_GLOBAL, operator, ACTIVATED, m.id);
      Appended(env, s, ts, d, env.canonical(d, env.detailText(ExpectedActivation(m, digest, seal))))
        .(activeIds := s.activeIds[m.id := s.ids])
    else s
  }

  /** One committed transaction. An insert commits its row and its audit row together;
      rows may be removed without one; every other audit row has its own action. */
  function After(env: CutoverEnv, s: Store, e: Event): Store {
    match e
    case Remember(id, ts, d, detail) =>
      if id in s.ids || IsTransition(d) then s
      else Appended(env, s, ts, d, env.chain.write(d, detail)).(ids := s.ids + {id})
    case Remove(gone) => s.(ids := s.ids - gone)
    case Audit(ts, d, detail) =>
      if IsTransition(d) then s else Appended(env, s, ts, d, env.chain.write(d, detail))
    case Seal(ts, operator, id, digest, scan, approved) =>
      if CanSeal(env, s, scan, approved) && id !in s.sealedIds
      then SealStore(env, s, ts, operator, id, digest, scan) else s
    case Activate(ts, operator, m, digest) => ActivateStore(env, s, ts, operator, m, digest)
  }

  function Run(env: CutoverEnv, s: Store, events: seq<Event>): Store {
    if events == [] then s else After(env, Run(env, s, events[..|events| - 1]), events[|events| - 1])
  }

  // -- What every run keeps -----------------------------------------------------------

  /** Row `i` is the seal of its target over the head before it. */
  ghost predicate SealAt(env: CutoverEnv, s: Store, i: nat)
    requires i < |s.log|
  {
    var id := s.log[i].display.target;
    && id in s.sealedIds
    && exists digest, report :: AuditDetail(env, s.log[i]) ==
         Some(env.detailText(SealDetail(id, digest, report, i, Head(s.log[..i]), |s.sealedIds[id]|)))
  }

  /** Row `i` activates a manifest sealed by the row just before it, with the same memories stored. */
  ghost predicate ActivationAt(s: Store, i: nat)
    requires i < |s.log|
  {
    var id := s.log[i].display.target;
    && i > 0 && s.log[i - 1].display.action == SEALED && s.log[i - 1].display.target == id
    && id in s.sealedIds && id in s.activeIds && s.activeIds[id] == s.sealedIds[id]
  }

  ghost predicate Inv(env: CutoverEnv, s: Store) {
    && LogOk(env.chain, s.log)
    && (forall i :: 0 <= i < |s.log| && s.log[i].display.action == SEALED ==> SealAt(env, s, i))
    && (forall i :: 0 <= i < |s.log| && s.log[i].display.action == ACTIVATED ==> ActivationAt(s, i))
    && (HeadSealed(s).Some? ==> HeadSealed(s).value in s.sealedIds && s.ids <= s.sealedIds[HeadSealed(s).value])
  }

  /** The manifest whose seal is the current head row. */
  function HeadSealed(s: Store): Option<string> {
    if s.log != [] && s.log[|s.log| - 1].display.action == SEALED
    then Some(s.log[|s.log| - 1].display.target) else None
  }

  lemma AppendKeepsInv(env: CutoverEnv, s: Store, next: Store, row: AuditRow)
    requires env.Valid() && Inv(env, s) && LogOk(env.chain, next.log)
    requires next.log == s.log + [row]
    requires forall id :: id in s.sealedIds ==> id in next.sealedIds && next.sealedIds[id] == s.sealedIds[id]
    requires forall id :: id in s.activeIds && (id != row.display.target || row.display.action != ACTIVATED)
               ==> id in next.activeIds && next.activeIds[id] == s.activeIds[id]
    requires row.display.action == SEALED ==> SealAt(env, next, |s.log|) && next.ids == next.sealedIds[row.display.target]
    requires row.display.action == ACTIVATED ==> ActivationAt(next, |s.log|)
    ensures Inv(env, next)
  {
    forall i | 0 <= i < |next.log| && next.log[i].display.action == SEALED ensures SealAt(env, next, i) {
      if i < |s.log| {
        assert SealAt(env, s, i);
        assert next.log[..i] == s.log[..i];
      }
    }
    forall i | 0 <= i < |next.log| && next.log[i].display.action == ACTIVATED ensures ActivationAt(next, i) {
      if i < |s.log| { assert ActivationAt(s, i); }
    }
  }

  lemma SealKeepsInv(env: CutoverEnv, s: Store, ts: Instant, operator: string, id: string, digest: string, scan: SealingScan)
    requires env.Valid() && Inv(env, s) && id !in s.sealedIds
    ensures Inv(env, SealStore(env, s, ts, operator, id, digest, scan))
  {
    var next := SealStore(env, s, ts, operator, id, digest, scan);
    var m := ManifestOf(s, operator, id, scan);
    var d := Display(STORE_GLOBAL, operator, SEALED, id);
    var body := env.canonical(d, env.detailText(ExpectedSeal(m, digest)));
    AppendKeepsLog(env.chain, s.log, ts, d, body);
    assert next.log[..|s.log|] == s.log;
    assert AuditDetail(env, next.log[|s.log|]) == Some(env.detailText(
      SealDetail(id, digest, scan.reportDigest, |s.log|, Head(s.log), |s.ids|)));
    assert SealAt(env, next, |s.log|);
    AppendKeepsInv(env, s, next, next.log[|s.log|]);
  }

  /** What a validated seal is in a reachable store. */
  lemma ValidatedSealIsStored(env: CutoverEnv, s: Store, m: Manifest, digest: string)
    requires env.Valid() && Inv(env, s) && ValidateSeal(env, s, m, digest).Some?
    ensures var seal := ValidateSeal(env, s, m, digest).value.seal;
      && 0 < seal.seqNo <= |s.log| && s.log[seal.seqNo - 1] == seal
      && seal.display.action == SEALED && seal.display.target == m.id
      && m.id in s.sealedIds && m.snapshot.rowCount == |s.sealedIds[m.id]|
  {
    var seal := ValidateSeal(env, s, m, digest).value.seal;
    assert seal in TransitionsOf(s.log, m.id, SEALED);
    var i :| 0 <= i < |s.log| && s.log[i] == seal;
    assert SealAt(env, s, i);
    BoundSealCount(env, s, i, m, digest);
  }

  /** The detail of a seal row says how many memories its manifest counted. */
  lemma BoundSealCount(env: CutoverEnv, s: Store, i: nat, m: Manifest, digest: string)
    requires env.Valid() && i < |s.log| && s.log[i].display.target == m.id && SealAt(env, s, i)
    requires AuditDetail(env, s.log[i]) == Some(env.detailText(ExpectedSeal(m, digest)))
    ensures m.snapshot.rowCount == |s.sealedIds[m.id]|
  {
    var bound, report :| AuditDetail(env, s.log[i]) ==
      Some(env.detailText(SealDetail(m.id, bound, report, i, Head(s.log[..i]), |s.sealedIds[m.id]|)));
    assert env.readDetail(env.detailText(ExpectedSeal(m, digest))) ==
      Some(SealDetail(m.id, bound, report, i, Head(s.log[..i]), |s.sealedIds[m.id]|));
  }

  /** In a reachable store a sealed manifest activates exactly when its seal is still
      the head of the log and the stored memories are the sealed ones. */
  lemma ActivatesIffUntouched(env: CutoverEnv, s: Store, m: Manifest, digest: string)
    requires env.Valid() && Inv(env, s)
    requires ValidateSeal(env, s, m, digest).Some? && ValidateSeal(env, s, m, digest).value.activation.None?
    ensures m.id in s.sealedIds
    ensures ActivationOutcome(env, s, m, digest).Active? <==>
      HeadSealed(s) == Some(m.id) && s.ids == s.sealedIds[m.id]
  {
    ValidatedSealIsStored(env, s, m, digest);
    SealIsHeadIff(s, m.id, ValidateSeal(env, s, m, digest).value.seal);
    if HeadSealed(s) == Some(m.id) { SameSizeIffSame(s.ids, s.sealedIds[m.id]); }
  }

  lemma SealIsHeadIff(s: Store, id: string, seal: AuditRow)
    requires Numbered(s.log) && TransitionsOf(s.log, id, SEALED) == [seal]
    requires 0 < seal.seqNo <= |s.log| && s.log[seal.seqNo - 1] == seal
    requires seal.display.action == SEALED && seal.display.target == id
    ensures HeadSealed(s) == Some(id) <==> |s.log| == seal.seqNo
    ensures |s.log| == seal.seqNo ==> Head(s.log) == seal.rowHash && HeadPrev(s.log) == Some(seal.prevHash)
  {
    if HeadSealed(s) == Some(id) {
      assert s.log[|s.log| - 1] in TransitionsOf(s.log, id, SEALED);
    }
  }

  lemma SameSizeIffSame<T>(a: set<T>, b: set<T>)
    requires a <= b
    ensures |a| == |b| <==> a == b
  {
    if |a| == |b| { SubsetOfSameSize(a, b); }
  }

  lemma ActivateKeepsInv(env: CutoverEnv, s: Store, ts: Instant, operator: string, m: Manifest, digest: string)
    requires env.Valid() && Inv(env, s)
    ensures Inv(env, ActivateStore(env, s, ts, operator, m, digest))
  {
    if ActivationOutcome(env, s, m, digest).Active? {
      var next := ActivateStore(env, s, ts, operator, m, digest);
      ValidatedSealIsStored(env, s, m, digest);
      ActivatesIffUntouched(env, s, m, digest);
      var seal := ValidateSeal(env, s, m, digest).value.seal;
      var d := Display(STORE_GLOBAL, operator, ACTIVATED, m.id);
      AppendKeepsLog(env.chain, s.log, ts, d, env.canonical(d, env.detailText(ExpectedActivation(m, digest, seal))));
      assert ActivationAt(next, |s.log|);
      AppendKeepsInv(env, s, next, next.log[|s.log|]);
    }
  }

  lemma StepKeepsInv(env: CutoverEnv, s: Store, e: Event)
    requires env.Valid() && Inv(env, s)
    ensures Inv(env, After(env, s, e))
  {
    var next := After(env, s, e);
    match e
    case Remember(id, ts, d, detail) =>
      AppendKeepsLog(env.chain, s.log, ts, d, env.chain.write(d, detail));
      if next != s { AppendKeepsInv(env, s, next, next.log[|s.log|]); }
    case Remove(gone) => RemoveKeepsInv(env, s, gone);
    case Audit(ts, d, detail) =>
      AppendKeepsLog(env.chain, s.log, ts, d, env.chain.write(d, detail));
      if next != s { AppendKeepsInv(env, s, next, next.log[|s.log|]); }
    case Seal(ts, operator, id, digest, scan, approved) =>
      if next != s { SealKeepsInv(env, s, ts, operator, id, digest, scan); }
    case Activate(ts, operator, m, digest) => ActivateKeepsInv(env, s, ts, operator, m, digest);
  }

  lemma RemoveKeepsInv(env: CutoverEnv, s: Store, gone: set<string>)
    requires Inv(env, s)
    ensures Inv(env, s.(ids := s.ids - gone))
  {
    var next := s.(ids := s.ids - gone);
    forall i | 0 <= i < |s.log| && s.log[i].display.action == SEALED ensures SealAt(env, next, i) {
      assert SealAt(env, s, i);
    }
    forall i | 0 <= i < |s.log| && s.log[i].display.action == ACTIVATED ensures ActivationAt(next, i) {
      assert ActivationAt(s, i);
    }
  }

  /** In every run, each activation row stands right after its seal, the seal right
      after the head it scanned, and the memories stored at activation are exactly the
      memories the scan counted: none was inserted or removed in between. */
  lemma {:induction false} EveryRunActivatesSealedSnapshot(env: CutoverEnv, chainId: string, events: seq<Event>)
    requires env.Valid()
    ensures Inv(env, Run(env, EmptyStore(chainId), events))
  {
    if events != [] {
      EveryRunActivatesSealedSnapshot(env, chainId, events[..|events| - 1]);
      StepKeepsInv(env, Run(env, EmptyStore(chainId), events[..|events| - 1]), events[|events| - 1]);
    }
  }

  // -- Activation is final and repeatable ------------------------------------------------

  predicate Activated(env: CutoverEnv, s: Store, m: Manifest, digest: string) {
    var t := ValidateSeal(env, s, m, digest);
    t.Some? && t.value.activation.Some?
  }

  lemma TransitionsAfterAppend(log: seq<AuditRow>, row: AuditRow, id: string, action: string)
    ensures TransitionsOf(log + [row], id, action) ==
      TransitionsOf(log, id, action) +
        (if row.display.target == id && row.display.action == action then [row] else [])
  {
    FilterAppend(log, [row], (r: AuditRow) => r.display.target == id && r.display.action == action);
  }

  lemma OtherRowKeepsActivation(env: CutoverEnv, s: Store, next: Store, row: AuditRow, m: Manifest, digest: string)
    requires Activated(env, s, m, digest)
    requires next.log == s.log + [row] && next.chainId == s.chainId && ChainOk(env.chain, next.log)
    requires !(row.display.target == m.id && IsTransition(row.display))
    ensures ValidateSeal(env, next, m, digest) == ValidateSeal(env, s, m, digest)
  {
    TransitionsAfterAppend(s.log, row, m.id, SEALED);
    TransitionsAfterAppend(s.log, row, m.id, ACTIVATED);
  }

  /** Whatever manifest bytes are presented under an activated id, nothing is written. */
  lemma ActivatedIdRefusesAnother(
    env: CutoverEnv, s: Store, m: Manifest, digest: string, ts: Instant, operator: string, other: Manifest, pin: string)
    requires Activated(env, s, m, digest) && other.id == m.id
    ensures ActivateStore(env, s, ts, operator, other, pin) == s
  {
    assert TransitionsOf(s.log, m.id, ACTIVATED) != [];
  }

  lemma StepKeepsActivation(env: CutoverEnv, s: Store, e: Event, m: Manifest, digest: string)
    requires env.Valid() && Inv(env, s) && Activated(env, s, m, digest)
    ensures ValidateSeal(env, After(env, s, e), m, digest) == ValidateSeal(env, s, m, digest)
  {
    assert ChainOk(env.chain, After(env, s, e).log) by { StepKeepsInv(env, s, e); }
    assert m.id in s.sealedIds by { ValidatedSealIsStored(env, s, m, digest); }
    StepAppendsForeignRow(env, s, e, m, digest);
    var next := After(env, s, e);
    if next.log == s.log {
      SameLogSameTransitions(env, s, next, m, digest);
    } else {
      OtherRowKeepsActivation(env, s, next, next.log[|s.log|], m, digest);
    }
  }

  lemma SameLogSameTransitions(env: CutoverEnv, s: Store, next: Store, m: Manifest, digest: string)
    requires next.log == s.log && next.chainId == s.chainId
    ensures ValidateSeal(env, next, m, digest) == ValidateSeal(env, s, m, digest)
  {
  }

  lemma StepAppendsForeignRow(env: CutoverEnv, s: Store, e: Event, m: Manifest, digest: string)
    requires Activated(env, s, m, digest) && m.id in s.sealedIds
    ensures var next := After(env, s, e);
      && next.chainId == s.chainId
      && (next.log == s.log ||
           (|next.log| == |s.log| + 1 && next.log == s.log + [next.log[|s.log|]]
            && !(next.log[|s.log|].display.target == m.id && IsTransition(next.log[|s.log|].display))))
  {
    StepAppendsAtMostOne(env, s, e);
    if e.Activate? && e.manifest.id == m.id {
      ActivatedIdRefusesAnother(env, s, m, digest, e.ts, e.operator, e.manifest, e.digest);
    }
  }

  /** A transaction leaves the log alone or appends one row; a transition row it appends
      carries the id of the manifest it seals or activates. */
  lemma StepAppendsAtMostOne(env: CutoverEnv, s: Store, e: Event)
    ensures var next := After(env, s, e);
      && next.chainId == s.chainId
      && (next.log == s.log || (|next.log| == |s.log| + 1 && next.log == s.log + [next.log[|s.log|]]))
      && (next.log != s.log && IsTransition(next.log[|s.log|].display) ==>
            || (e.Seal? && e.manifestId !in s.sealedIds && next.log[|s.log|].display.target == e.manifestId)
            || (e.Activate? && next.log[|s.log|].display.target == e.manifest.id))
  {
  }

  /** Once a manifest validates as activated, it validates with the same two rows in
      every later state of the store, and activating it again writes nothing. */
  lemma {:induction false} ActivationIsFinal(env: CutoverEnv, s: Store, events: seq<Event>, m: Manifest, digest: string)
    requires env.Valid() && Inv(env, s) && Activated(env, s, m, digest)
    ensures Inv(env, Run(env, s, events))
    ensures ValidateSeal(env, Run(env, s, events), m, digest) == ValidateSeal(env, s, m, digest)
    ensures forall ts, operator :: ActivateStore(env, Run(env, s, events), ts, operator, m, digest) == Run(env, s, events)
  {
    if events != [] {
      var before := events[..|events| - 1];
      ActivationIsFinal(env, s, before, m, digest);
      StepKeepsActivation(env, Run(env, s, before), events[|events| - 1], m, digest);
      StepKeepsInv(env, Run(env, s, before), events[|events| - 1]);
    }
  }

  /** A fresh seal validates. */
  lemma FreshSealValidates(env: CutoverEnv, s: Store, ts: Instant, operator: string, id: string, digest: string, scan: SealingScan)
    requires env.Valid() && Inv(env, s) && id !in s.sealedIds
    ensures var sealed := SealStore(env, s, ts, operator, id, digest, scan);
      ValidateSeal(env, sealed, ManifestOf(s, operator, id, scan), digest) ==
        Some(Transitions(sealed.log[|s.log|], None))
  {
    var m := ManifestOf(s, operator, id, scan);
    var sealed := SealStore(env, s, ts, operator, id, digest, scan);
    assert ChainOk(env.chain, sealed.log) by { SealKeepsInv(env, s, ts, operator, id, digest, scan); }
    FreshTransitions(env, s, sealed.log[|s.log|], id);
    FreshSealBinds(env, s, ts, operator, id, digest, scan);
  }

  lemma FreshTransitions(env: CutoverEnv, s: Store, row: AuditRow, id: string)
    requires Inv(env, s) && id !in s.sealedIds && row.display.target == id && row.display.action == SEALED
    ensures TransitionsOf(s.log + [row], id, SEALED) == [row] && TransitionsOf(s.log + [row], id, ACTIVATED) == []
  {
    NoTransitionsOfUnsealed(env, s, id);
    TransitionsAfterAppend(s.log, row, id, SEALED);
    TransitionsAfterAppend(s.log, row, id, ACTIVATED);
  }

  lemma FreshSealBinds(env: CutoverEnv, s: Store, ts: Instant, operator: string, id: string, digest: string, scan: SealingScan)
    requires env.Valid() && Inv(env, s) && id !in s.sealedIds
    ensures var sealed := SealStore(env, s, ts, operator, id, digest, scan);
      SealBinds(env, sealed.log, ManifestOf(s, operator, id, scan), digest, sealed.log[|s.log|])
  {
    SealKeepsInv(env, s, ts, operator, id, digest, scan);
  }

  /** Sealing and activating with nothing in between always succeeds. */
  lemma SealThenActivate(env: CutoverEnv, s: Store, ts: Instant, operator: string, id: string, digest: string, scan: SealingScan)
    requires env.Valid() && Inv(env, s) && id !in s.sealedIds
    ensures ActivationOutcome(
      env, SealStore(env, s, ts, operator, id, digest, scan), ManifestOf(s, operator, id, scan), digest).Active?
  {
    FreshSealValidates(env, s, ts, operator, id, digest, scan);
    SealKeepsInv(env, s, ts, operator, id, digest, scan);
    ActivatesIffUntouched(
      env, SealStore(env, s, ts, operator, id, digest, scan), ManifestOf(s, operator, id, scan), digest);
  }

  lemma NoTransitionsOfUnsealed(env: CutoverEnv, s: Store, id: string)
    requires Inv(env, s) && id !in s.sealedIds
    ensures TransitionsOf(s.log, id, SEALED) == [] && TransitionsOf(s.log, id, ACTIVATED) == []
  {
    forall row | row in s.log ensures !(row.display.target == id && IsTransition(row.display)) {
      var i :| 0 <= i < |s.log| && s.log[i] == row;
      assert row.display.action == SEALED ==> SealAt(env, s, i);
      assert row.display.action == ACTIVATED ==> ActivationAt(s, i);
    }
    FilterNone(s.log, (row: AuditRow) => row.display.target == id && row.display.action == SEALED);
    FilterNone(s.log, (row: AuditRow) => row.display.target == id && row.display.action == ACTIVATED);
  }

  // -- The manager ------------------------------------------------------------------------

  /** Sealing and activation against a store held under its write lock. */
  class CutoverManager {
    const env: CutoverEnv
    var store: Store

    constructor (env: CutoverEnv, store: Store)
      ensures this.env == env && this.store == store
    {
      this.env := env;
      this.store := store;
    }

    method Seal(ts: Instant, operator: string, id: string, digest: string, scan: SealingScan, approved: string)
      returns (manifest: Option<Manifest>)
      requires env.Valid() && Inv(env, store) && id !in store.sealedIds
      modifies this
      ensures store == After(env, old(store), Event.Seal(ts, operator, id, digest, scan, approved))
      ensures manifest.Some? <==>
        scan.reportDigest == approved && scan.failures == 0 && ChainOk(env.chain, old(store).log)
      ensures manifest.Some? ==> ActivationOutcome(env, store, manifest.value, digest).Active?
      ensures Inv(env, store)
    {
      StepKeepsInv(env, store, Event.Seal(ts, operator, id, digest, scan, approved));
      if scan.reportDigest != approved || scan.failures != 0 {
        return None;
      }
      var chainOk := VerifyChain(env.chain, store.log);
      if !chainOk {
        return None;
      }
      SealThenActivate(env, store, ts, operator, id, digest, scan);
      var m := ManifestOf(store, operator, id, scan);
      store := SealStore(env, store, ts, operator, id, digest, scan);
      return Some(m);
    }

    method ValidateManifestSeal(m: Manifest, digest: string) returns (t: Option<Transitions>)
      ensures t == ValidateSeal(env, store, m, digest)
    {
      if store.chainId != m.chainId {
        return None;
      }
      var chainOk := VerifyChain(env.chain, store.log);
      if !chainOk {
        return None;
      }
      var seals := TransitionsOf(store.log, m.id, SEALED);
      var activations := TransitionsOf(store.log, m.id, ACTIVATED);
      if |seals| != 1 || |activations| > 1 || !SealBinds(env, store.log, m, digest, seals[0]) {
        return None;
      }
      if activations == [] {
        return Some(Transitions(seals[0], None));
      }
      if !ActivationBinds(env, m, digest, seals[0], activations[0]) {
        return None;
      }
      return Some(Transitions(seals[0], Some(activations[0])));
    }

    method Activate(ts: Instant, operator: string, m: Manifest, digest: string) returns (outcome: Outcome)
      requires env.Valid() && Inv(env, store)
      modifies this
      ensures outcome == ActivationOutcome(env, old(store), m, digest)
      ensures store == After(env, old(store), Event.Activate(ts, operator, m, digest))
      ensures !outcome.Active? ==> store == old(store)
      ensures Inv(env, store)
    {
      ActivateKeepsInv(env, store, ts, operator, m, digest);
      var t := ValidateManifestSeal(m, digest);
      if t.None? {
        return Refused;
      }
      if t.value.activation.Some? {
        return AlreadyActive;
      }
      var seal := t.value.seal;
      if |store.log| != seal.seqNo || Head(store.log) != seal.rowHash || HeadPrev(store.log) != Some(seal.prevHash) {
        return Refused;
      }
      if |store.ids| != m.snapshot.rowCount {
        return Refused;
      }
      store := ActivateStore(env, store, ts, operator, m, digest);
      return Active;
    }
  }
}
