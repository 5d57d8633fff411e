/** One key for life: from creation until shred every stored envelope of a subject opens
    to the same key, under all interleavings of writers, readers, rotations and erasers. */
module KeyLife {
  import opened Common
  import opened Custody
  import opened Policy
  import opened Database
  import opened Processes

  // -- Which steps are sound ------------------------------------------------------------------

  /** The custodians a process uses all hold the roots their key ids name. */
  predicate ProcWellKeyed(crypto: Crypto, p: Proc) {
    match p
    case Reading(w, _, _, _) => WellKeyed(crypto, w.custodian)
    case Keying(w, _, _, _) => WellKeyed(crypto, w.custodian)
    case Fetching(_, _, c) => WellKeyed(crypto, c)
    case FetchMigrating(_, _, c, _) => WellKeyed(crypto, c)
    case Listing(_, outgoing, incoming) => WellKeyed(crypto, outgoing) && WellKeyed(crypto, incoming)
    case Rewrapping(_, outgoing, incoming, _) => WellKeyed(crypto, outgoing) && WellKeyed(crypto, incoming)
    case _ => true
  }

  /** The envelope and custodian a step is about to unwrap with, if it unwraps one. */
  function AboutToUnwrap(db: Db, p: Proc, choice: string): Option<(Custodian, Envelope)> {
    match p
    case Keying(w, _, _, phase) =>
      var stored := StoredKey(db, w.tenant, w.subject);
      if (phase.Lookup? || phase.Rereading?) && stored.Some? then Some((w.custodian, stored.value)) else None
    case Rewrapping(_, outgoing, incoming, todo) =>
      if choice in todo && todo[choice].Active? && todo[choice].envelope.Some? && incoming.Kms?
         && !(todo[choice].envelope.value.Wrapped? && todo[choice].envelope.value.keyId == incoming.keyId)
      then Some((outgoing, todo[choice].envelope.value)) else None
    case _ => None
  }

  /** A step a deployment can rule out beforehand: custodians match their key ids, and no
      raw custodian is pointed at a wrapped envelope. */
  ghost predicate Matched(crypto: Crypto, sys: System, e: Event) {
    match e
    case Begin(_, verb) => ProcWellKeyed(crypto, verb)
    case Step(pid, choice) =>
      pid in sys.procs ==>
        var use := AboutToUnwrap(sys.db, sys.procs[pid], choice);
        use.Some? ==> !Mismatched(use.value.0, use.value.1)
    case Crash(_) => true
  }

  ghost predicate MatchedRun(crypto: Crypto, events: seq<Event>) {
    events == [] ||
    (MatchedRun(crypto, events[..|events| - 1])
     && Matched(crypto, Run(crypto, events[..|events| - 1]), events[|events| - 1]))
  }

  // -- What every matched run keeps ---------------------------------------------------------

  /** The subject's key is known, and this is it. */
  predicate IsKey(h: History, t: Tenant, s: Subject, k: Bytes) {
    (t, s) in h.deks && h.deks[(t, s)] == k
  }

  predicate HoldsKey(crypto: Crypto, h: History, t: Tenant, s: Subject, row: KeyRow) {
    row.Active? ==> (
      && row.envelope.Some? && (t, s) in h.deks
      && Opens(crypto, t, s, row.envelope.value) == Some(h.deks[(t, s)]))
  }

  /** Stored envelopes open to the first key; rows of a subject that is not erased are
      encrypted under it. */
  ghost predicate DbOk(crypto: Crypto, db: Db, h: History) {
    && h.deks.Keys <= db.keys.Keys
    && (forall k :: k in db.keys ==> HoldsKey(crypto, h, k.0, k.1, db.keys[k]))
    && (forall id :: id in db.rows ==> RowOk(crypto, db, h, db.rows[id]))
  }

  predicate RowOk(crypto: Crypto, db: Db, h: History, row: Row) {
    IsErased(db, row.tenant, row.subject)
    || ((row.tenant, row.subject) in db.keys && EncryptedUnderKey(crypto, h, row))
  }

  /** Keys and envelopes a process carries in its locals are the subject's, or its subject was erased since. */
  ghost predicate ProcOk(crypto: Crypto, db: Db, h: History, p: Proc) {
    && ProcWellKeyed(crypto, p)
    && match p
       case Keying(w, _, _, Migrating(k)) => IsKey(h, w.tenant, w.subject, k)
       case Ready(w, _, _, k) => IsKey(h, w.tenant, w.subject, k)
       case FetchMigrating(t, s, _, k) => IsKey(h, t, s, k)
       case Rewrapping(t, _, incoming, todo) =>
         incoming.Kms? && forall s :: s in todo ==> HoldsKey(crypto, h, t, s, todo[s])
       case Listing(_, _, incoming) => incoming.Kms?
       case Editing(x) => IsEdit(x)
       case _ => true
  }

  ghost predicate KeyInv(crypto: Crypto, sys: System) {
    && DbOk(crypto, sys.db, sys.hist)
    && forall pid :: pid in sys.procs ==> ProcOk(crypto, sys.db, sys.hist, sys.procs[pid])
  }

  /** Keys once recorded are never replaced. */
  predicate Extends(a: History, b: History) {
    forall k :: k in a.deks ==> k in b.deks && b.deks[k] == a.deks[k]
  }

  lemma ProcStaysOk(crypto: Crypto, db: Db, h: History, db': Db, h': History, p: Proc)
    requires ProcOk(crypto, db, h, p) && Extends(h, h')
    ensures ProcOk(crypto, db', h', p)
  {
  }

  /** What a transaction must satisfy to keep the database sound. */
  predicate TxnOk(crypto: Crypto, h: History, x: Txn) {
    match x
    case PutKey(t, s, e) => (t, s) in h.deks && Opens(crypto, t, s, e) == Some(h.deks[(t, s)])
    case CreateKey(t, s, e) => Opens(crypto, t, s, e).Some?
    case Insert(m) => EncryptedUnderKey(crypto, h, m.row)
    case _ => true
  }

  predicate EncryptedUnderKey(crypto: Crypto, h: History, row: Row) {
    (row.tenant, row.subject) in h.deks
    && row.cipher == crypto.encrypt(row.written, h.deks[(row.tenant, row.subject)])
  }

  lemma RetiredRowsStayOk(crypto: Crypto, db: Db, h: History, rows: map<Id, Row>, t: Tenant, targets: seq<Target>)
    requires Supersede(rows, t, targets).Some?
    requires forall id :: id in rows ==> RowOk(crypto, db, h, rows[id])
    ensures forall id :: id in Supersede(rows, t, targets).value ==> RowOk(crypto, db, h, Supersede(rows, t, targets).value[id])
  {
    SupersedeTouchesReviewOnly(rows, t, targets);
    var after := Supersede(rows, t, targets).value;
    forall id | id in after ensures RowOk(crypto, db, h, after[id]) {
      assert after[id].(review := "") == rows[id].(review := "");
      assert RowOk(crypto, db, h, rows[id]);
    }
  }

  lemma RowsStayOk(crypto: Crypto, db: Db, h: History, db': Db, h': History)
    requires forall id :: id in db.rows ==> RowOk(crypto, db, h, db.rows[id])
    requires forall id :: id in db'.rows ==>
      id in db.rows && db'.rows[id].(review := "", epistemic := "", createdBy := "")
                    == db.rows[id].(review := "", epistemic := "", createdBy := "")
    requires db.keys.Keys <= db'.keys.Keys && Extends(h, h')
    requires forall k :: k in db.keys && db.keys[k].Shredded? ==> db'.keys[k].Shredded?
    ensures forall id :: id in db'.rows ==> RowOk(crypto, db', h', db'.rows[id])
  {
    forall id | id in db'.rows ensures RowOk(crypto, db', h', db'.rows[id]) {
      assert RowOk(crypto, db, h, db.rows[id]);
    }
  }

  lemma CommitKeepsDb(crypto: Crypto, db: Db, h: History, x: Txn)
    requires DbOk(crypto, db, h) && TxnOk(crypto, h, x)
    ensures DbOk(crypto, Commit(db, x), Recorded(crypto, db, h, x))
    ensures Extends(h, Recorded(crypto, db, h, x))
  {
    CommitKeepsKeys(crypto, db, h, x);
    CommitKeepsRows(crypto, db, h, x);
  }

  lemma CommitKeepsKeys(crypto: Crypto, db: Db, h: History, x: Txn)
    requires DbOk(crypto, db, h) && TxnOk(crypto, h, x)
    ensures var db', h' := Commit(db, x), Recorded(crypto, db, h, x);
      && Extends(h, h') && h'.deks.Keys <= db'.keys.Keys && db.keys.Keys <= db'.keys.Keys
      && (forall k :: k in db.keys && db.keys[k].Shredded? ==> db'.keys[k].Shredded?)
      && (forall k :: k in db'.keys ==> HoldsKey(crypto, h', k.0, k.1, db'.keys[k]))
  {
    var db', h' := Commit(db, x), Recorded(crypto, db, h, x);
    KeysChangeAtOnePlace(crypto, db, h, x);
    forall k | k in db'.keys ensures HoldsKey(crypto, h', k.0, k.1, db'.keys[k]) {
      OneKeyHolds(crypto, db, h, x, k);
    }
  }

  lemma OneKeyHolds(crypto: Crypto, db: Db, h: History, x: Txn, k: (Tenant, Subject))
    requires DbOk(crypto, db, h) && TxnOk(crypto, h, x) && k in Commit(db, x).keys
    ensures HoldsKey(crypto, Recorded(crypto, db, h, x), k.0, k.1, Commit(db, x).keys[k])
  {
    KeysChangeAtOnePlace(crypto, db, h, x);
    if k in db.keys { assert HoldsKey(crypto, h, k.0, k.1, db.keys[k]); }
  }

  /** Only the three key transactions touch keys, each at its own subject. */
  lemma KeysChangeAtOnePlace(crypto: Crypto, db: Db, h: History, x: Txn)
    requires h.deks.Keys <= db.keys.Keys
    ensures var db', h' := Commit(db, x), Recorded(crypto, db, h, x);
      match x
      case CreateKey(t, s, e) =>
        if (t, s) in db.keys then db'.keys == db.keys && h'.deks == h.deks
        else db'.keys == db.keys[(t, s) := Active(Some(e))]
             && (Opens(crypto, t, s, e).Some? ==> h'.deks == h.deks[(t, s) := Opens(crypto, t, s, e).value])
      case PutKey(t, s, e) =>
        h'.deks == h.deks && (db'.keys == db.keys || (!IsErased(db, t, s) && db'.keys == db.keys[(t, s) := Active(Some(e))]))
      case ShredKey(t, s) => h'.deks == h.deks && db'.keys == db.keys[(t, s) := Shredded]
      case _ => h'.deks == h.deks && db'.keys == db.keys
  {
  }

  lemma CommitKeepsRows(crypto: Crypto, db: Db, h: History, x: Txn)
    requires DbOk(crypto, db, h) && TxnOk(crypto, h, x)
    ensures var db', h' := Commit(db, x), Recorded(crypto, db, h, x);
      forall id :: id in db'.rows ==> RowOk(crypto, db', h', db'.rows[id])
  {
    var db', h' := Commit(db, x), Recorded(crypto, db, h, x);
    CommitKeepsKeys(crypto, db, h, x);
    if x.Insert? {
      InsertKeepsRows(crypto, db, h, x.memory);
    } else if x.SupersedeOnly? {
      if Supersede(db.rows, x.tenant, x.targets).Some? { RetiredRowsStayOk(crypto, db, h, db.rows, x.tenant, x.targets); }
      SameKeysSameRows(crypto, db, h, db', h');
    } else {
      RowsOnlyShrink(db, x);
      RowsStayOk(crypto, db, h, db', h');
    }
  }

  lemma RowsOnlyShrink(db: Db, x: Txn)
    requires !x.Insert? && !x.SupersedeOnly?
    ensures forall id :: id in Commit(db, x).rows ==>
      id in db.rows && Commit(db, x).rows[id].(review := "", epistemic := "", createdBy := "")
                    == db.rows[id].(review := "", epistemic := "", createdBy := "")
  {
  }

  lemma InsertKeepsRows(crypto: Crypto, db: Db, h: History, m: NewMemory)
    requires DbOk(crypto, db, h) && EncryptedUnderKey(crypto, h, m.row)
    ensures var db', h' := Commit(db, Insert(m)), Recorded(crypto, db, h, Insert(m));
      forall id :: id in db'.rows ==> RowOk(crypto, db', h', db'.rows[id])
  {
    if InsertRefusal(db, m).None? {
      assert RowOk(crypto, db, h, m.row);
      RetiredRowsStayOk(crypto, db, h, db.rows[m.id := m.row], m.row.tenant, m.superseded);
    }
    SameKeysSameRows(crypto, db, h, Commit(db, Insert(m)), Recorded(crypto, db, h, Insert(m)));
  }

  lemma SameKeysSameRows(crypto: Crypto, db: Db, h: History, db': Db, h': History)
    requires db'.keys == db.keys && h'.deks == h.deks
    requires forall id :: id in db'.rows ==> RowOk(crypto, db, h, db'.rows[id])
    ensures forall id :: id in db'.rows ==> RowOk(crypto, db', h', db'.rows[id])
  {
  }

  /** What a step must not do: unwrap with a mismatched custodian. */
  predicate StepMatched(db: Db, p: Proc, choice: string) {
    var use := AboutToUnwrap(db, p, choice);
    use.Some? ==> !Mismatched(use.value.0, use.value.1)
  }

  ghost predicate Sound(crypto: Crypto, db: Db, h: History, step: (Txn, Proc)) {
    && TxnOk(crypto, h, step.0)
    && ProcOk(crypto, Commit(db, step.0), Recorded(crypto, db, h, step.0), step.1)
  }

  /** A matched step commits a sound transaction and leaves sound locals. */
  lemma StepIsSound(crypto: Crypto, db: Db, h: History, p: Proc, choice: string)
    requires crypto.Valid() && DbOk(crypto, db, h) && ProcOk(crypto, db, h, p) && StepMatched(db, p, choice)
    ensures Sound(crypto, db, h, Advance(crypto, db, p, choice))
  {
    match p
    case Keying(_, _, _, _) => KeyStepIsSound(crypto, db, h, p, choice);
    case Rewrapping(_, _, _, _) => RewrapIsSound(crypto, db, h, p, choice);
    case Listing(_, _, _) => KeyReadIsSound(crypto, db, h, p, choice);
    case Fetching(_, _, _) => KeyReadIsSound(crypto, db, h, p, choice);
    case _ => OtherStepIsSound(crypto, db, h, p, choice);
  }

  lemma KeyReadIsSound(crypto: Crypto, db: Db, h: History, p: Proc, choice: string)
    requires (p.Listing? || p.Fetching?) && DbOk(crypto, db, h) && ProcOk(crypto, db, h, p)
    ensures Sound(crypto, db, h, Advance(crypto, db, p, choice))
  {
    if p.Listing? {
      forall s | s in KeysOf(db, p.t) ensures HoldsKey(crypto, h, p.t, s, KeysOf(db, p.t)[s]) {
        var k := (p.t, s);
        assert HoldsKey(crypto, h, k.0, k.1, db.keys[k]);
      }
    } else {
      var k := (p.t, p.s);
      assert k in db.keys ==> HoldsKey(crypto, h, k.0, k.1, db.keys[k]);
    }
  }

  /** Steps that read no key. */
  lemma OtherStepIsSound(crypto: Crypto, db: Db, h: History, p: Proc, choice: string)
    requires !p.Keying? && !p.Rewrapping? && !p.Listing? && !p.Fetching?
    requires crypto.Valid() && ProcOk(crypto, db, h, p)
    ensures Sound(crypto, db, h, Advance(crypto, db, p, choice))
  {
  }

  lemma KeyStepIsSound(crypto: Crypto, db: Db, h: History, p: Proc, choice: string)
    requires p.Keying? && crypto.Valid() && DbOk(crypto, db, h) && ProcOk(crypto, db, h, p) && StepMatched(db, p, choice)
    ensures Sound(crypto, db, h, GetKeyStep(crypto, db, p.w, p.policy, p.live, p.phase, choice))
  {
    var k := (p.w.tenant, p.w.subject);
    assert k in db.keys ==> HoldsKey(crypto, h, k.0, k.1, db.keys[k]);
  }

  lemma RewrapIsSound(crypto: Crypto, db: Db, h: History, p: Proc, choice: string)
    requires p.Rewrapping? && crypto.Valid() && ProcOk(crypto, db, h, p) && StepMatched(db, p, choice)
    ensures Sound(crypto, db, h, Advance(crypto, db, p, choice))
  {
    if choice in p.todo { assert HoldsKey(crypto, h, p.t, choice, p.todo[choice]); }
  }

  lemma StepKeepsKeys(crypto: Crypto, sys: System, e: Event)
    requires crypto.Valid() && KeyInv(crypto, sys) && Matched(crypto, sys, e)
    ensures KeyInv(crypto, Next(crypto, sys, e))
    ensures Extends(sys.hist, Next(crypto, sys, e).hist)
  {
    var next := Next(crypto, sys, e);
    if e.Step? && e.pid in sys.procs {
      var x := TxnOf(crypto, sys, e);
      StepIsSound(crypto, sys.db, sys.hist, sys.procs[e.pid], e.choice);
      CommitKeepsDb(crypto, sys.db, sys.hist, x);
    }
    forall pid | pid in next.procs ensures ProcOk(crypto, next.db, next.hist, next.procs[pid]) {
      if pid in sys.procs && next.procs[pid] == sys.procs[pid] {
        ProcStaysOk(crypto, sys.db, sys.hist, next.db, next.hist, sys.procs[pid]);
      }
    }
  }

  lemma {:induction false} MatchedRunsKeepKeys(crypto: Crypto, events: seq<Event>)
    requires crypto.Valid() && MatchedRun(crypto, events)
    ensures KeyInv(crypto, Run(crypto, events))
  {
    if events != [] {
      MatchedRunsKeepKeys(crypto, events[..|events| - 1]);
      StepKeepsKeys(crypto, Run(crypto, events[..|events| - 1]), events[|events| - 1]);
    }
  }

  lemma {:induction false} KeysNeverChange(crypto: Crypto, events: seq<Event>, n: nat)
    requires crypto.Valid() && MatchedRun(crypto, events) && n <= |events|
    ensures MatchedRun(crypto, events[..n])
    ensures Extends(Run(crypto, events[..n]).hist, Run(crypto, events).hist)
    decreases |events|
  {
    if n == |events| {
      assert events[..n] == events;
    } else {
      var before := events[..|events| - 1];
      assert before[..n] == events[..n];
      KeysNeverChange(crypto, before, n);
      MatchedRunsKeepKeys(crypto, before);
      StepKeepsKeys(crypto, Run(crypto, before), events[|events| - 1]);
    }
  }

  /** Whatever envelope is stored for a subject at one moment of a matched run and at any
      later one, both open to the same key. */
  lemma OneKeyForLife(crypto: Crypto, events: seq<Event>, n: nat, t: Tenant, s: Subject)
    requires crypto.Valid() && MatchedRun(crypto, events) && n <= |events|
    requires StoredKey(Run(crypto, events[..n]).db, t, s).Some? && StoredKey(Run(crypto, events).db, t, s).Some?
    ensures var first := Opens(crypto, t, s, StoredKey(Run(crypto, events[..n]).db, t, s).value);
      first.Some? && first == Opens(crypto, t, s, StoredKey(Run(crypto, events).db, t, s).value)
  {
    KeysNeverChange(crypto, events, n);
    MatchedRunsKeepKeys(crypto, events[..n]);
    MatchedRunsKeepKeys(crypto, events);
    var k := (t, s);
    var a, b := Run(crypto, events[..n]), Run(crypto, events);
    assert HoldsKey(crypto, a.hist, k.0, k.1, a.db.keys[k]);
    assert HoldsKey(crypto, b.hist, k.0, k.1, b.db.keys[k]);
  }

  /** Every stored row of a subject that is not erased decrypts, with the key its stored
      envelope opens to, to exactly the content written. */
  lemma RowsDecryptToWhatWasWritten(crypto: Crypto, events: seq<Event>, id: Id)
    requires crypto.Valid() && MatchedRun(crypto, events)
    requires id in Run(crypto, events).db.rows
    ensures var db := Run(crypto, events).db;
      var row := db.rows[id];
      !IsErased(db, row.tenant, row.subject) ==>
        var e := StoredKey(db, row.tenant, row.subject);
        && e.Some? && Opens(crypto, row.tenant, row.subject, e.value).Some?
        && crypto.decrypt(row.cipher, Opens(crypto, row.tenant, row.subject, e.value).value) == Some(row.written)
  {
    MatchedRunsKeepKeys(crypto, events);
    var sys := Run(crypto, events);
    var row := sys.db.rows[id];
    assert RowOk(crypto, sys.db, sys.hist, row);
    var k := (row.tenant, row.subject);
    if k in sys.db.keys { assert HoldsKey(crypto, sys.hist, k.0, k.1, sys.db.keys[k]); }
  }

  // -- When it fails ------------------------------------------------------------------------

  /** What a rotation step does to a key that is not current. It loses the key exactly when a
      raw outgoing custodian faces a wrapped envelope whose own bytes can be wrapped (and are
      not the key); it raises exactly when the envelope does not open, or what came out of it
      cannot be wrapped. */
  lemma RewrapLosesKeyIff(
    crypto: Crypto, t: Tenant, s: Subject, outgoing: Custodian, incoming: Custodian, e: Envelope, key: Bytes)
    requires crypto.Valid() && WellKeyed(crypto, outgoing) && WellKeyed(crypto, incoming) && incoming.Kms?
    requires Opens(crypto, t, s, e) == Some(key) && !(e.Wrapped? && e.keyId == incoming.keyId)
    ensures var (x, goesOn) := RewrapStep(crypto, t, outgoing, incoming, s, Active(Some(e)));
      var k := Unwrap(crypto, outgoing, t, s, e);
      && (x.PutKey? && Opens(crypto, t, s, x.envelope) != Some(key) <==>
            Mismatched(outgoing, e) && Wrappable(crypto.bytesOf(e)) && crypto.bytesOf(e) != key)
      && (!goesOn <==> k.None? || !Wrappable(k.value))
      && (goesOn <==> x.PutKey?)
  {
    UnwrapReturnsTheKey(crypto, outgoing, t, s, e);
    var k := Unwrap(crypto, outgoing, t, s, e);
    if k.Some? { WrapOpens(crypto, incoming, t, s, k.value); }
  }

  /** What a rotation step does to the other rows: a tombstone and a row without material are passed
      over; a key already under the incoming id is left alone, but must open under the incoming root,
      or the rotation raises. */
  lemma RewrapLeavesCurrent(
    crypto: Crypto, t: Tenant, s: Subject, outgoing: Custodian, incoming: Custodian, row: KeyRow)
    requires incoming.Kms?
    requires row.Active? && row.envelope.Some? ==> row.envelope.value.Wrapped? && row.envelope.value.keyId == incoming.keyId
    ensures var (x, goesOn) := RewrapStep(crypto, t, outgoing, incoming, s, row);
      && x == NoTxn
      && (goesOn <==>
            row.Shredded? || row.envelope.None? || crypto.open(incoming.root, t, s, row.envelope.value.sealedKey).Some?)
  {
  }

  /** With the stored form of an envelope, a mismatched rotation of a 32-byte key replaces it by
      the envelope for key ids of one length in eight, and raises for all others, the default ones
      included. What replaces the key encrypts as the key does only if the key is the common
      beginning of all envelopes. */
  lemma MismatchedRotationByKeyId(
    crypto: Crypto, t: Tenant, s: Subject, incoming: Custodian, keyId: string, sealedKey: Bytes, key: Bytes)
    requires crypto.Valid() && WellKeyed(crypto, incoming) && incoming.Kms? && keyId != incoming.keyId
    requires var e := Wrapped(keyId, sealedKey);
      && |sealedKey| == 54 && crypto.bytesOf(e) == EnvelopeBytes(keyId, sealedKey)
      && |key| == KEY_LENGTH && Opens(crypto, t, s, e) == Some(key)
    ensures var (x, goesOn) := RewrapStep(crypto, t, RawLocal, incoming, s, Active(Some(Wrapped(keyId, sealedKey))));
      && (|keyId| % 8 == 5 ==>
            && x.PutKey? && Opens(crypto, t, s, x.envelope) == Some(EnvelopeBytes(keyId, sealedKey)) != Some(key)
            && (CipherKey(Opens(crypto, t, s, x.envelope).value) == CipherKey(key) <==> key == BEFORE_ID[..KEY_LENGTH]))
      && (|keyId| % 8 != 5 ==> x == NoTxn && !goesOn)
    ensures |"local-root"| % 8 != 5 && |"env-root"| % 8 != 5
  {
    EnvelopeWrappableIff(keyId, sealedKey);
    EnvelopeCipherKey(keyId, sealedKey);
    WrapOpens(crypto, incoming, t, s, EnvelopeBytes(keyId, sealedKey));
    RewrapLosesKeyIff(crypto, t, s, RawLocal, incoming, Wrapped(keyId, sealedKey), key);
  }

  /** What a writer that found a stored envelope does. It goes on at once exactly with a raw
      custodian or one whose key id the envelope names; it migrates exactly a raw envelope under a
      wrapping custodian; it gives up exactly on a foreign key id. Going on at once it encrypts as
      under the subject's key exactly when its custodian is not mismatched (or the envelope begins
      like the key); what it migrates is the key. */
  lemma LookupFindsKeyIff(crypto: Crypto, w: WriteArgs, policy: Policy, live: seq<Id>, e: Envelope, key: Bytes)
    requires crypto.Valid() && WellKeyed(crypto, w.custodian)
    requires Opens(crypto, w.tenant, w.subject, e) == Some(key)
    ensures var p := UseEnvelope(crypto, w, policy, live, e);
      && (p.Ready? <==> w.custodian.RawLocal? || (e.Wrapped? && e.keyId == w.custodian.keyId))
      && (p == Keying(w, policy, live, Migrating(key)) <==> w.custodian.Kms? && e.Raw?)
      && (p.Idle? <==> w.custodian.Kms? && e.Wrapped? && e.keyId != w.custodian.keyId)
      && (p.Ready? ==>
            (p.key == key <==> !Mismatched(w.custodian, e) || crypto.bytesOf(e) == key)
            && (CipherKey(p.key) == CipherKey(key) <==>
                  !Mismatched(w.custodian, e) || CipherKey(crypto.bytesOf(e)) == CipherKey(key)))
  {
    UnwrapReturnsTheKey(crypto, w.custodian, w.tenant, w.subject, e);
  }

  /** A migrating writer goes on, with the key it read, exactly when the key can be wrapped and
      the subject was not erased since; it then leaves an envelope that opens to that key. */
  lemma MigrationKeepsKeyIff(
    crypto: Crypto, db: Db, w: WriteArgs, policy: Policy, live: seq<Id>, key: Bytes, choice: Bytes)
    requires crypto.Valid() && WellKeyed(crypto, w.custodian) && w.custodian.Kms?
    ensures var (x, p) := GetKeyStep(crypto, db, w, policy, live, Migrating(key), choice);
      && (p == Ready(w, policy, live, key) <==> Wrappable(key) && !IsErased(db, w.tenant, w.subject))
      && (p != Ready(w, policy, live, key) ==> p.Idle? && Commit(db, x) == db)
      && (p.Ready? ==>
            var stored := StoredKey(Commit(db, x), w.tenant, w.subject);
            stored.Some? && Opens(crypto, w.tenant, w.subject, stored.value) == Some(key))
  {
    WrapOpens(crypto, w.custodian, w.tenant, w.subject, key);
  }

  const SAMPLE_KEY: Bytes := "0123456789abcdef0123456789abcdef"
  const SAMPLE_ID := "acme-root-v01"

  /** A concrete mismatch: rotating with no outgoing custodian a 32-byte key that is wrapped
      under a root with a 13-character id replaces it by the bytes of its own envelope. */
  lemma RawRotationLosesKey()
    ensures var crypto := ToyCrypto();
      var stored := Wrap(crypto, Kms(crypto.rootOf(SAMPLE_ID), SAMPLE_ID), "t", "s", SAMPLE_KEY);
      var incoming := Kms(crypto.rootOf("new"), "new");
      && crypto.Valid() && stored.Some?
      && Opens(crypto, "t", "s", stored.value) == Some(SAMPLE_KEY)
      && var x := RewrapStep(crypto, "t", RawLocal, incoming, "s", Active(Some(stored.value))).0;
         x.PutKey? && Opens(crypto, "t", "s", x.envelope) == Some(crypto.bytesOf(stored.value)) != Some(SAMPLE_KEY)
  {
    var crypto := ToyCrypto();
    ToyCryptoIsValid();
    var stored := Wrap(crypto, Kms(crypto.rootOf(SAMPLE_ID), SAMPLE_ID), "t", "s", SAMPLE_KEY).value;
    assert |SAMPLE_KEY| == 32 && |SAMPLE_ID| == 13;
    EnvelopeWrappableIff(SAMPLE_ID, stored.sealedKey);
    assert SAMPLE_ID[0] != "new"[0];
    assert |crypto.bytesOf(stored)| == 136;
    WrapOpens(crypto, Kms(crypto.rootOf("new"), "new"), "t", "s", crypto.bytesOf(stored));
  }

  const SAMPLE_WRITE := WriteArgs(
    "m", "t", "s", [], "p", "text", Policy(TenantWide, Public, false, {}, {}, []), [], [], "", "", "", false, RawLocal)

  /** A concrete lookup: a writer without a custodian that finds the same key wrapped goes on with
      the envelope's bytes, and would encrypt under another key. */
  lemma RawLookupYieldsEnvelope()
    ensures var crypto := ToyCrypto();
      var stored := Wrap(crypto, Kms(crypto.rootOf(SAMPLE_ID), SAMPLE_ID), "t", "s", SAMPLE_KEY);
      && crypto.Valid() && stored.Some?
      && Opens(crypto, "t", "s", stored.value) == Some(SAMPLE_KEY)
      && var p := UseEnvelope(crypto, SAMPLE_WRITE, SAMPLE_WRITE.own, [], stored.value);
         p.Ready? && p.key == crypto.bytesOf(stored.value) && CipherKey(p.key) != CipherKey(SAMPLE_KEY)
  {
    var crypto := ToyCrypto();
    ToyCryptoIsValid();
    var stored := Wrap(crypto, Kms(crypto.rootOf(SAMPLE_ID), SAMPLE_ID), "t", "s", SAMPLE_KEY).value;
    assert |SAMPLE_KEY| == 32 && SAMPLE_KEY[0] == '0' && BEFORE_ID[0] == 'h';
    EnvelopeCipherKey(SAMPLE_ID, stored.sealedKey);
    LookupFindsKeyIff(crypto, SAMPLE_WRITE, SAMPLE_WRITE.own, [], stored, SAMPLE_KEY);
  }

  /** Functions that satisfy the laws and give keys and envelopes their lengths: a 32-byte key
      takes 54 characters when wrapped and encoded. */
  function ToyCrypto(): Crypto {
    Crypto(
      (_: Bytes, _: string, _: string, k: Bytes) => k + PADDING,
      (_: Bytes, _: string, _: string, x: Bytes) => if |x| < |PADDING| then None else Some(x[..|x| - |PADDING|]),
      (text: string, _: Bytes) => text,
      (x: Bytes, _: Bytes) => Some(x),
      (e: Envelope) => match e case Raw(k) => k case Wrapped(keyId, x) => EnvelopeBytes(keyId, x),
      (keyId: string) => "root-" + keyId)
  }

  const PADDING: Bytes := "AAAAAAAAAAAAAAAAAAAAAA"

  lemma ToyCryptoIsValid()
    ensures ToyCrypto().Valid()
  {
    forall k: Bytes ensures (k + PADDING)[..|k + PADDING| - |PADDING|] == k {
    }
  }
}
