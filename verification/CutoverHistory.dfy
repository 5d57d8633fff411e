/** What the transition rows of a cutover come from: in every run each of them goes back to one
    approved sealing scan, and a manifest validates exactly if it is the one that was sealed. */
module CutoverHistory {
  import opened Common
  import opened HashChain
  import opened StrictCutover

  ghost function StateAt(env: CutoverEnv, chainId: string, events: seq<Event>, k: nat): Store
    requires k <= |events|
  {
    Run(env, EmptyStore(chainId), events[..k])
  }

  /** Event `k` sealed: the operator approved exactly the report of the scan, the scan found no
      failure, the log verified, and the manifest describes what was stored then. */
  ghost predicate SealedBy(env: CutoverEnv, chainId: string, events: seq<Event>, k: nat, m: Manifest, digest: string) {
    && k < |events| && events[k].Seal?
    && var s, e := StateAt(env, chainId, events, k), events[k];
       && e.scan.failures == 0 && e.scan.reportDigest == e.approved && ChainOk(env.chain, s.log)
       && e.digest == digest && e.manifestId !in s.sealedIds
       && m == Manifest(
            e.manifestId, chainId, e.operator,
            Snapshot(|s.log|, Head(s.log), HeadPrev(s.log), |s.ids|, e.approved))
  }

  /** A row that records a seal of `m` as number `i` of the log. */
  ghost predicate RecordsSeal(env: CutoverEnv, row: AuditRow, i: nat, m: Manifest, digest: string) {
    && row.display == Display(STORE_GLOBAL, m.producer, SEALED, m.id)
    && m.snapshot.headSeq == i
    && AuditDetail(env, row) == Some(env.detailText(
         SealDetail(m.id, digest, m.snapshot.reportDigest, i, m.snapshot.headHash, m.snapshot.rowCount)))
  }

  ghost predicate SealedHere(env: CutoverEnv, chainId: string, events: seq<Event>, i: nat, k: nat, m: Manifest, digest: string)
  {
    var log := Run(env, EmptyStore(chainId), events).log;
    i < |log| && SealedBy(env, chainId, events, k, m, digest) && RecordsSeal(env, log[i], i, m, digest)
  }

  // -- Runs grow -------------------------------------------------------------------------------

  lemma {:induction false} ChainIdStays(env: CutoverEnv, chainId: string, events: seq<Event>)
    ensures Run(env, EmptyStore(chainId), events).chainId == chainId
  {
    if events != [] {
      ChainIdStays(env, chainId, events[..|events| - 1]);
      StepAppendsAtMostOne(env, Run(env, EmptyStore(chainId), events[..|events| - 1]), events[|events| - 1]);
    }
  }

  lemma {:induction false} LogGrows(env: CutoverEnv, chainId: string, events: seq<Event>, k: nat)
    requires k <= |events|
    ensures StateAt(env, chainId, events, k).log <= Run(env, EmptyStore(chainId), events).log
  {
    if k == |events| {
      assert events[..k] == events;
    } else {
      var before := events[..|events| - 1];
      assert before[..k] == events[..k];
      LogGrows(env, chainId, before, k);
      StepAppendsAtMostOne(env, Run(env, EmptyStore(chainId), before), events[|events| - 1]);
    }
  }

  lemma EarlierSealStays(env: CutoverEnv, chainId: string, events: seq<Event>, k: nat, m: Manifest, digest: string)
    requires events != [] && SealedBy(env, chainId, events[..|events| - 1], k, m, digest)
    ensures SealedBy(env, chainId, events, k, m, digest)
  {
    assert events[..|events| - 1][..k] == events[..k];
  }

  /** A scan with failures, or one the operator did not approve, leaves the store as it was. */
  lemma UncleanScanIsRefused(
    env: CutoverEnv, s: Store, ts: Instant, operator: string, id: string, digest: string, scan: SealingScan, approved: string)
    requires scan.failures > 0 || scan.reportDigest != approved || !ChainOk(env.chain, s.log)
    ensures After(env, s, Event.Seal(ts, operator, id, digest, scan, approved)) == s
  {
  }

  /** A memory is stored once: with a new id the row and its audit row are added together, with a
      stored one nothing is. */
  lemma RememberedOnce(env: CutoverEnv, s: Store, id: string, ts: Instant, d: Display, detail: string)
    requires !IsTransition(d)
    ensures var next := After(env, s, Remember(id, ts, d, detail));
      if id in s.ids then next == s
      else next.ids == s.ids + {id} && |next.log| == |s.log| + 1 && next.log[..|s.log|] == s.log && next.log[|s.log|].display == d
  {
  }

  /** A step that writes a seal row is the seal of a clean, approved scan over a valid log. */
  lemma SealStep(env: CutoverEnv, s: Store, e: Event)
    requires env.Valid()
    requires var log := After(env, s, e).log; |log| > |s.log| && log[|s.log|].display.action == SEALED
    ensures e.Seal? && e.scan.failures == 0 && e.scan.reportDigest == e.approved
    ensures ChainOk(env.chain, s.log) && e.manifestId !in s.sealedIds
    ensures After(env, s, e) == SealStore(env, s, e.ts, e.operator, e.manifestId, e.digest, e.scan)
  {
    assert SEALED != ACTIVATED;
  }

  lemma SealStoreRecords(env: CutoverEnv, s: Store, ts: Instant, operator: string, id: string, digest: string, scan: SealingScan)
    requires env.Valid()
    ensures var next, m := SealStore(env, s, ts, operator, id, digest, scan), ManifestOf(s, operator, id, scan);
      |next.log| == |s.log| + 1 && RecordsSeal(env, next.log[|s.log|], |s.log|, m, digest)
  {
  }

  lemma SealStepRecords(env: CutoverEnv, chainId: string, events: seq<Event>) returns (m: Manifest, digest: string)
    requires env.Valid() && events != []
    requires var s := StateAt(env, chainId, events, |events| - 1);
      var log := Run(env, EmptyStore(chainId), events).log;
      |log| > |s.log| && log[|s.log|].display.action == SEALED
    ensures SealedHere(env, chainId, events, |StateAt(env, chainId, events, |events| - 1).log|, |events| - 1, m, digest)
  {
    var k, e := |events| - 1, events[|events| - 1];
    var s := StateAt(env, chainId, events, k);
    ChainIdStays(env, chainId, events[..k]);
    SealStep(env, s, e);
    SealStoreRecords(env, s, e.ts, e.operator, e.manifestId, e.digest, e.scan);
    m, digest := ManifestOf(s, e.operator, e.manifestId, e.scan), e.digest;
  }

  /** In every run each seal row was written for an approved report without failures over a
      valid log, and says what its manifest says. */
  lemma {:induction false} SealRowsAreApproved(env: CutoverEnv, chainId: string, events: seq<Event>, i: nat)
    requires env.Valid() && i < |Run(env, EmptyStore(chainId), events).log|
    requires Run(env, EmptyStore(chainId), events).log[i].display.action == SEALED
    ensures exists k, m, digest :: SealedHere(env, chainId, events, i, k, m, digest)
    decreases |events|
  {
    assert events != [];
    var before := events[..|events| - 1];
    var s := Run(env, EmptyStore(chainId), before);
    StepAppendsAtMostOne(env, s, events[|events| - 1]);
    if i < |s.log| {
      SealRowsAreApproved(env, chainId, before, i);
      var k, m, digest :| SealedHere(env, chainId, before, i, k, m, digest);
      EarlierSealStays(env, chainId, events, k, m, digest);
      assert SealedHere(env, chainId, events, i, k, m, digest);
    } else {
      var m, digest := SealStepRecords(env, chainId, events);
      assert SealedHere(env, chainId, events, i, |events| - 1, m, digest);
    }
  }

  // -- Only the sealed manifest validates ------------------------------------------------------

  /** Two seal details with one text are one. */
  lemma SealDetailDecodes(env: CutoverEnv, a: Detail, b: Detail)
    requires env.Valid() && env.detailText(a) == env.detailText(b)
    ensures a == b
  {
    assert env.readDetail(env.detailText(a)) == Some(a);
    assert env.readDetail(env.detailText(b)) == Some(b);
  }

  /** A manifest that agrees with a seal row on everything the row records, and on the head it
      extends, is the manifest that was sealed. */
  lemma BoundManifestIsSealed(env: CutoverEnv, log: seq<AuditRow>, i: nat, m: Manifest, digest: string, other: Manifest, pin: string)
    requires env.Valid() && i < |log| && log[i].seqNo == i + 1
    requires RecordsSeal(env, log[i], i, m, digest) && m.snapshot.headPrev == HeadPrev(log[..i])
    requires SealBinds(env, log, other, pin, log[i]) && other.id == m.id && other.chainId == m.chainId
    ensures other == m && pin == digest
  {
    SealDetailDecodes(
      env, ExpectedSeal(other, pin),
      SealDetail(m.id, digest, m.snapshot.reportDigest, i, m.snapshot.headHash, m.snapshot.rowCount));
    assert other.snapshot.headSeq == i;
    assert i > 0 ==> log[..i][i - 1] == log[i - 1];
    assert other.snapshot == m.snapshot;
  }

  lemma ValidatedBinds(env: CutoverEnv, s: Store, m: Manifest, digest: string)
    requires ValidateSeal(env, s, m, digest).Some?
    ensures SealBinds(env, s.log, m, digest, ValidateSeal(env, s, m, digest).value.seal) && m.chainId == s.chainId
  {
  }

  lemma ValidatedSealRow(env: CutoverEnv, s: Store, m: Manifest, digest: string) returns (i: nat)
    requires env.Valid() && Inv(env, s) && ValidateSeal(env, s, m, digest).Some?
    ensures i < |s.log| && s.log[i].seqNo == i + 1 && s.log[i].display.action == SEALED
    ensures s.log[i] == ValidateSeal(env, s, m, digest).value.seal
    ensures s.log[i].display.target == m.id
  {
    ValidatedSealIsStored(env, s, m, digest);
    i := ValidateSeal(env, s, m, digest).value.seal.seqNo - 1;
  }

  /** A seal row of the run and the event that wrote it, with the head it extended. */
  lemma SealOrigin(env: CutoverEnv, chainId: string, events: seq<Event>, i: nat) returns (k: nat, m: Manifest, digest: string)
    requires env.Valid() && i < |Run(env, EmptyStore(chainId), events).log|
    requires Run(env, EmptyStore(chainId), events).log[i].display.action == SEALED
    ensures SealedBy(env, chainId, events, k, m, digest)
    ensures var log := Run(env, EmptyStore(chainId), events).log;
      RecordsSeal(env, log[i], i, m, digest) && m.snapshot.headPrev == HeadPrev(log[..i])
  {
    SealRowsAreApproved(env, chainId, events, i);
    k, m, digest :| SealedHere(env, chainId, events, i, k, m, digest);
    LogGrows(env, chainId, events, k);
    assert Run(env, EmptyStore(chainId), events).log[..i] == StateAt(env, chainId, events, k).log;
  }

  /** What a run validates was sealed in it: same bytes, same fields, nothing else. */
  lemma ValidatedWasSealed(env: CutoverEnv, chainId: string, events: seq<Event>, m: Manifest, digest: string) returns (k: nat)
    requires env.Valid() && ValidateSeal(env, Run(env, EmptyStore(chainId), events), m, digest).Some?
    ensures SealedBy(env, chainId, events, k, m, digest)
  {
    var s := Run(env, EmptyStore(chainId), events);
    EveryRunActivatesSealedSnapshot(env, chainId, events);
    ChainIdStays(env, chainId, events);
    var i := ValidatedSealRow(env, s, m, digest);
    ValidatedBinds(env, s, m, digest);
    var other, pin;
    k, other, pin := SealOrigin(env, chainId, events, i);
    BoundManifestIsSealed(env, s.log, i, other, pin, m, digest);
  }

  /** What a sealing event stores. */
  lemma SealedByStores(env: CutoverEnv, chainId: string, events: seq<Event>, m: Manifest, digest: string)
    requires events != [] && SealedBy(env, chainId, events, |events| - 1, m, digest)
    ensures var s, e := StateAt(env, chainId, events, |events| - 1), events[|events| - 1];
      && e.manifestId !in s.sealedIds && digest == e.digest
      && Run(env, EmptyStore(chainId), events) == SealStore(env, s, e.ts, e.operator, e.manifestId, digest, e.scan)
      && m == ManifestOf(s, e.operator, e.manifestId, e.scan)
  {
    ChainIdStays(env, chainId, events[..|events| - 1]);
  }

  /** A manifest validates as soon as it is sealed. */
  lemma SealedValidatesAtOnce(env: CutoverEnv, chainId: string, events: seq<Event>, m: Manifest, digest: string)
    requires env.Valid() && events != [] && SealedBy(env, chainId, events, |events| - 1, m, digest)
    ensures ValidateSeal(env, Run(env, EmptyStore(chainId), events), m, digest).Some?
  {
    var e, s := events[|events| - 1], StateAt(env, chainId, events, |events| - 1);
    EveryRunActivatesSealedSnapshot(env, chainId, events[..|events| - 1]);
    SealedByStores(env, chainId, events, m, digest);
    FreshSealValidates(env, s, e.ts, e.operator, e.manifestId, digest, e.scan);
  }

  /** A row of no transition of the manifest leaves its validation alone. */
  lemma ForeignRowKeepsSeal(env: CutoverEnv, s: Store, next: Store, row: AuditRow, m: Manifest, digest: string)
    requires ValidateSeal(env, s, m, digest).Some?
    requires next.log == s.log + [row] && next.chainId == s.chainId && ChainOk(env.chain, next.log)
    requires !(row.display.target == m.id && IsTransition(row.display))
    ensures ValidateSeal(env, next, m, digest) == ValidateSeal(env, s, m, digest)
  {
    TransitionsAfterAppend(s.log, row, m.id, SEALED);
    TransitionsAfterAppend(s.log, row, m.id, ACTIVATED);
  }

  /** Activating a sealed manifest keeps it valid, now with its activation. */
  lemma ActivationValidates(env: CutoverEnv, s: Store, ts: Instant, operator: string, m: Manifest, digest: string)
    requires env.Valid() && Inv(env, s) && ActivationOutcome(env, s, m, digest).Active?
    ensures var next := ActivateStore(env, s, ts, operator, m, digest);
      |next.log| == |s.log| + 1
      && ValidateSeal(env, next, m, digest) ==
           Some(Transitions(ValidateSeal(env, s, m, digest).value.seal, Some(next.log[|s.log|])))
  {
    var next := ActivateStore(env, s, ts, operator, m, digest);
    ActivateKeepsInv(env, s, ts, operator, m, digest);
    TransitionsAfterAppend(s.log, next.log[|s.log|], m.id, SEALED);
    TransitionsAfterAppend(s.log, next.log[|s.log|], m.id, ACTIVATED);
    ActivationRowBinds(env, s, ts, operator, m, digest);
  }

  lemma ActivationRowBinds(env: CutoverEnv, s: Store, ts: Instant, operator: string, m: Manifest, digest: string)
    requires env.Valid() && Inv(env, s) && ActivationOutcome(env, s, m, digest).Active?
    ensures var next := ActivateStore(env, s, ts, operator, m, digest);
      ActivationBinds(env, m, digest, ValidateSeal(env, s, m, digest).value.seal, next.log[|s.log|])
  {
  }

  /** The step appends a transition row of the manifest id. */
  ghost predicate AddsTransition(env: CutoverEnv, s: Store, e: Event, id: string) {
    var log := After(env, s, e).log;
    |log| > |s.log| && log[|s.log|].display.target == id && IsTransition(log[|s.log|].display)
  }

  /** The only transition row a step can add for a sealed manifest is its own activation. */
  lemma OwnTransitionIsActivation(env: CutoverEnv, s: Store, e: Event, id: string)
    requires id in s.sealedIds && AddsTransition(env, s, e, id)
    ensures e.Activate? && e.manifest.id == id && ActivationOutcome(env, s, e.manifest, e.digest).Active?
  {
    StepAppendsAtMostOne(env, s, e);
  }

  lemma ForeignStepKeepsSeal(env: CutoverEnv, s: Store, e: Event, m: Manifest, digest: string)
    requires env.Valid() && Inv(env, s) && ValidateSeal(env, s, m, digest).Some? && !AddsTransition(env, s, e, m.id)
    ensures ValidateSeal(env, After(env, s, e), m, digest).Some?
  {
    var next := After(env, s, e);
    assert ChainOk(env.chain, next.log) by { StepKeepsInv(env, s, e); }
    StepAppendsAtMostOne(env, s, e);
    if next.log == s.log {
      SameLogSameTransitions(env, s, next, m, digest);
    } else {
      ForeignRowKeepsSeal(env, s, next, next.log[|s.log|], m, digest);
    }
  }

  lemma OwnActivationKeepsSeal(env: CutoverEnv, chainId: string, events: seq<Event>, e: Event, m: Manifest, digest: string)
    requires env.Valid() && e.Activate? && e.manifest.id == m.id
    requires var s := Run(env, EmptyStore(chainId), events);
      ValidateSeal(env, s, m, digest).Some? && ActivationOutcome(env, s, e.manifest, e.digest).Active?
    ensures ValidateSeal(env, After(env, Run(env, EmptyStore(chainId), events), e), m, digest).Some?
  {
    var s := Run(env, EmptyStore(chainId), events);
    EveryRunActivatesSealedSnapshot(env, chainId, events);
    OneManifestOfAnId(env, chainId, events, m, digest, e.manifest, e.digest);
    ActivationValidates(env, s, e.ts, e.operator, m, digest);
  }

  /** A sealed manifest stays valid through every step. */
  lemma StepKeepsSeal(env: CutoverEnv, chainId: string, events: seq<Event>, m: Manifest, digest: string)
    requires env.Valid() && events != []
    requires ValidateSeal(env, Run(env, EmptyStore(chainId), events[..|events| - 1]), m, digest).Some?
    ensures ValidateSeal(env, Run(env, EmptyStore(chainId), events), m, digest).Some?
  {
    var before, e := events[..|events| - 1], events[|events| - 1];
    var s := Run(env, EmptyStore(chainId), before);
    EveryRunActivatesSealedSnapshot(env, chainId, before);
    if AddsTransition(env, s, e, m.id) {
      ValidatedSealIsStored(env, s, m, digest);
      OwnTransitionIsActivation(env, s, e, m.id);
      OwnActivationKeepsSeal(env, chainId, before, e, m, digest);
    } else {
      ForeignStepKeepsSeal(env, s, e, m, digest);
    }
  }

  lemma SameSeal(env: CutoverEnv, s: Store, m: Manifest, digest: string, other: Manifest, pin: string)
    requires ValidateSeal(env, s, m, digest).Some? && ValidateSeal(env, s, other, pin).Some? && other.id == m.id
    ensures ValidateSeal(env, s, other, pin).value.seal == ValidateSeal(env, s, m, digest).value.seal
  {
  }

  /** Two manifests that validate under one id in one store are the same. */
  lemma OneManifestOfAnId(
    env: CutoverEnv, chainId: string, events: seq<Event>, m: Manifest, digest: string, other: Manifest, pin: string)
    requires env.Valid() && other.id == m.id
    requires var s := Run(env, EmptyStore(chainId), events);
      ValidateSeal(env, s, m, digest).Some? && ValidateSeal(env, s, other, pin).Some?
    ensures other == m && pin == digest
  {
    var s := Run(env, EmptyStore(chainId), events);
    EveryRunActivatesSealedSnapshot(env, chainId, events);
    ChainIdStays(env, chainId, events);
    var i := ValidatedSealRow(env, s, m, digest);
    SameSeal(env, s, m, digest, other, pin);
    ValidatedBinds(env, s, m, digest);
    ValidatedBinds(env, s, other, pin);
    var k, sealed, bound := SealOrigin(env, chainId, events, i);
    BoundManifestIsSealed(env, s.log, i, sealed, bound, m, digest);
    BoundManifestIsSealed(env, s.log, i, sealed, bound, other, pin);
  }

  /** In every run a manifest validates, under a digest, exactly when some event sealed this very
      manifest under this digest: an approved scan without failures over a valid log. */
  lemma {:induction false} ValidatesIffSealed(env: CutoverEnv, chainId: string, events: seq<Event>, m: Manifest, digest: string)
    requires env.Valid()
    ensures ValidateSeal(env, Run(env, EmptyStore(chainId), events), m, digest).Some?
      <==> exists k :: SealedBy(env, chainId, events, k, m, digest)
  {
    if ValidateSeal(env, Run(env, EmptyStore(chainId), events), m, digest).Some? {
      var k := ValidatedWasSealed(env, chainId, events, m, digest);
    } else if k :| SealedBy(env, chainId, events, k, m, digest) {
      SealedValidates(env, chainId, events, k, m, digest);
    }
  }

  lemma {:induction false} SealedValidates(
    env: CutoverEnv, chainId: string, events: seq<Event>, k: nat, m: Manifest, digest: string)
    requires env.Valid() && SealedBy(env, chainId, events, k, m, digest)
    ensures ValidateSeal(env, Run(env, EmptyStore(chainId), events), m, digest).Some?
    decreases |events|
  {
    if k == |events| - 1 {
      SealedValidatesAtOnce(env, chainId, events, m, digest);
    } else {
      var before := events[..|events| - 1];
      assert before[..k] == events[..k];
      SealedValidates(env, chainId, before, k, m, digest);
      StepKeepsSeal(env, chainId, events, m, digest);
    }
  }

  // -- Activation rows -------------------------------------------------------------------------

  /** Row `i` activates the manifest `m` that event `k` sealed and row `i - 1` records. */
  ghost predicate ActivatedHere(env: CutoverEnv, chainId: string, events: seq<Event>, i: nat, k: nat, m: Manifest, digest: string)
  {
    var log := Run(env, EmptyStore(chainId), events).log;
    && 0 < i < |log| && SealedBy(env, chainId, events, k, m, digest) && RecordsSeal(env, log[i - 1], i - 1, m, digest)
    && log[i].display.tenant == STORE_GLOBAL && log[i].display.target == m.id
    && AuditDetail(env, log[i]) == Some(env.detailText(
         ActivationDetail(m.id, digest, i, log[i - 1].rowHash, log[i - 1].prevHash)))
  }

  lemma EarlierActivationStays(env: CutoverEnv, chainId: string, events: seq<Event>, i: nat, k: nat, m: Manifest, digest: string)
    requires events != [] && ActivatedHere(env, chainId, events[..|events| - 1], i, k, m, digest)
    ensures ActivatedHere(env, chainId, events, i, k, m, digest)
  {
    StepAppendsAtMostOne(env, Run(env, EmptyStore(chainId), events[..|events| - 1]), events[|events| - 1]);
    EarlierSealStays(env, chainId, events, k, m, digest);
  }

  lemma ActivateStep(env: CutoverEnv, s: Store, e: Event)
    requires var log := After(env, s, e).log; |log| > |s.log| && log[|s.log|].display.action == ACTIVATED
    ensures e.Activate? && ActivationOutcome(env, s, e.manifest, e.digest).Active?
  {
    assert SEALED != ACTIVATED;
  }

  /** What an activation writes: its row extends the seal it names. */
  lemma ActivationRecords(env: CutoverEnv, s: Store, e: Event)
    requires env.Valid() && Inv(env, s) && e.Activate? && ActivationOutcome(env, s, e.manifest, e.digest).Active?
    ensures var log := After(env, s, e).log;
      && s.log != [] && log == s.log + [log[|s.log|]]
      && log[|s.log|].display == Display(STORE_GLOBAL, e.operator, ACTIVATED, e.manifest.id)
      && AuditDetail(env, log[|s.log|]) == Some(env.detailText(ActivationDetail(
           e.manifest.id, e.digest, |s.log|, s.log[|s.log| - 1].rowHash, s.log[|s.log| - 1].prevHash)))
      && s.log[|s.log| - 1] == ValidateSeal(env, s, e.manifest, e.digest).value.seal
  {
    ValidatedSealIsStored(env, s, e.manifest, e.digest);
  }

  lemma ActivateStepRecords(env: CutoverEnv, chainId: string, events: seq<Event>) returns (k: nat, m: Manifest, digest: string)
    requires env.Valid() && events != []
    requires var s := StateAt(env, chainId, events, |events| - 1);
      var log := Run(env, EmptyStore(chainId), events).log;
      |log| > |s.log| && log[|s.log|].display.action == ACTIVATED
    ensures ActivatedHere(env, chainId, events, |StateAt(env, chainId, events, |events| - 1).log|, k, m, digest)
  {
    var before, e := events[..|events| - 1], events[|events| - 1];
    var s := Run(env, EmptyStore(chainId), before);
    EveryRunActivatesSealedSnapshot(env, chainId, before);
    ActivateStep(env, s, e);
    ActivationRecords(env, s, e);
    m, digest := e.manifest, e.digest;
    var i := ValidatedSealRow(env, s, m, digest);
    ValidatedBinds(env, s, m, digest);
    var sealed, bound;
    k, sealed, bound := SealOrigin(env, chainId, before, i);
    ChainIdStays(env, chainId, before);
    BoundManifestIsSealed(env, s.log, i, sealed, bound, m, digest);
    EarlierSealStays(env, chainId, events, k, m, digest);
  }

  /** In every run each activation row stands right after the seal of the manifest it names, and
      that manifest was sealed from an approved scan without failures over a valid log. */
  lemma {:induction false} ActivationRowsAreApproved(env: CutoverEnv, chainId: string, events: seq<Event>, i: nat)
    requires env.Valid() && i < |Run(env, EmptyStore(chainId), events).log|
    requires Run(env, EmptyStore(chainId), events).log[i].display.action == ACTIVATED
    ensures exists k, m, digest :: ActivatedHere(env, chainId, events, i, k, m, digest)
    decreases |events|
  {
    assert events != [];
    var before := events[..|events| - 1];
    var s := Run(env, EmptyStore(chainId), before);
    StepAppendsAtMostOne(env, s, events[|events| - 1]);
    if i < |s.log| {
      ActivationRowsAreApproved(env, chainId, before, i);
      var k, m, digest :| ActivatedHere(env, chainId, before, i, k, m, digest);
      EarlierActivationStays(env, chainId, events, i, k, m, digest);
    } else {
      var k, m, digest := ActivateStepRecords(env, chainId, events);
    }
  }
}
