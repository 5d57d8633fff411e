/** Processes sharing one database file. Each verb is a small program with local state;
    one step of it is one committed transaction (or one read), and steps of different
    processes interleave freely. A process may crash between any two steps. */
module Processes {
  import opened Common
  import opened Custody
  import opened Policy
  import opened Database

  datatype WriteArgs = WriteArgs(
    id: Id, tenant: Tenant, subject: Subject, aliases: seq<Subject>, createdBy: string, content: string,
    own: Policy, derivedFrom: seq<Id>, superseded: seq<Target>, review: string, epistemic: string,
    contentHash: string, indexed: bool, custodian: Custodian)

  /** Where a writer stands in getting or creating its subject's key. */
  datatype KeyPhase = Lookup | Creating(key: Bytes) | Rereading(key: Bytes) | Migrating(key: Bytes)

  datatype Proc =
    | Idle
    // remember: read the parents one by one, get the key, insert, add the vector
    | Reading(w: WriteArgs, mark: Mark, live: seq<Id>, next: nat)
    | Keying(w: WriteArgs, policy: Policy, live: seq<Id>, phase: KeyPhase)
    | Ready(w: WriteArgs, policy: Policy, live: seq<Id>, key: Bytes)
    | Indexing(id: Id)
    // forget: vector pre-check, two seed reads, shred, purge, index removal
    | Checking(t: Tenant, s: Subject, canErase: bool)
    | Seeding(t: Tenant, s: Subject, canErase: bool)
    | SeedingLineage(t: Tenant, s: Subject, canErase: bool, seed: set<Id>)
    | Shredding(t: Tenant, s: Subject, canErase: bool, seed: set<Id>)
    | Purging(t: Tenant, s: Subject, canErase: bool, seed: set<Id>)
    | Unindexing(ids: set<Id>)
    // a reader's key access, which may migrate a raw envelope
    | Fetching(t: Tenant, s: Subject, c: Custodian)
    | FetchMigrating(t: Tenant, s: Subject, c: Custodian, key: Bytes)
    // key rotation over a listing of the tenant's keys
    | Listing(t: Tenant, outgoing: Custodian, incoming: Custodian)
    | Rewrapping(t: Tenant, outgoing: Custodian, incoming: Custodian, todo: map<Subject, KeyRow>)
    // single-row purge; opening the file; every other update
    | Deleting(id: Id)
    | Opening(created: bool)
    | Reindexing
    | Editing(edit: Txn)

  predicate IsEdit(x: Txn) {
    x.AddEdge? || x.Touch? || x.SupersedeOnly?
  }

  /** The states a verb can start in. */
  predicate Initial(p: Proc) {
    match p
    case Reading(w, mark, live, next) => mark == StartMark(w.own) && live == [] && next == 0
    case Checking(_, _, _) => true
    case Fetching(_, _, _) => true
    case Listing(_, _, incoming) => incoming.Kms?
    case Deleting(_) => true
    case Opening(_) => true
    case Editing(x) => IsEdit(x)
    case _ => false
  }

  // -- One step of each verb ----------------------------------------------------------------

  /** The next parent's metadata is read; a missing parent is skipped. */
  function ReadParent(db: Db, w: WriteArgs, mark: Mark, live: seq<Id>, next: nat): Proc {
    if next >= |w.derivedFrom| then
      Keying(w, if w.derivedFrom == [] then w.own else Marked(w.own, mark), live, Lookup)
    else
      var p := w.derivedFrom[next];
      if p in db.rows then Reading(w, Raise(mark, db.rows[p].policy), live + [p], next + 1)
      else Reading(w, mark, live, next + 1)
  }

  /** A stored envelope was read: unwrap it, use it raw, or migrate it first. */
  function UseEnvelope(crypto: Crypto, w: WriteArgs, policy: Policy, live: seq<Id>, e: Envelope): Proc {
    match e
    case Raw(k) =>
      if w.custodian.RawLocal? then Ready(w, policy, live, k) else Keying(w, policy, live, Migrating(k))
    case Wrapped(_, _) =>
      var k := Unwrap(crypto, w.custodian, w.tenant, w.subject, e);
      if k.None? then Idle else Ready(w, policy, live, k.value)
  }

  function StoredKey(db: Db, t: Tenant, s: Subject): Option<Envelope> {
    if (t, s) in db.keys && db.keys[(t, s)].Active? then db.keys[(t, s)].envelope else None
  }

  /** The get-or-create key steps of a writer. `choice` is the random key of 32 bytes; every
      other draw stands for a write that is given up. */
  function GetKeyStep(
    crypto: Crypto, db: Db, w: WriteArgs, policy: Policy, live: seq<Id>, phase: KeyPhase, choice: Bytes): (Txn, Proc)
  {
    var stored := StoredKey(db, w.tenant, w.subject);
    match phase
    case Lookup =>
      if IsErased(db, w.tenant, w.subject) then (NoTxn, Idle)
      else if stored.None? then
        (NoTxn, if |choice| == KEY_LENGTH then Keying(w, policy, live, Creating(choice)) else Idle)
      else (NoTxn, UseEnvelope(crypto, w, policy, live, stored.value))
    case Creating(k) =>
      var e := Wrap(crypto, w.custodian, w.tenant, w.subject, k);
      if e.None? then (NoTxn, Idle)
      else (CreateKey(w.tenant, w.subject, e.value), Keying(w, policy, live, Rereading(k)))
    case Rereading(k) =>
      if IsErased(db, w.tenant, w.subject) || stored.None? then (NoTxn, Idle)
      else if stored == Wrap(crypto, w.custodian, w.tenant, w.subject, k) then (NoTxn, Ready(w, policy, live, k))
      else (NoTxn, UseEnvelope(crypto, w, policy, live, stored.value))
    case Migrating(k) =>
      var e := Wrap(crypto, w.custodian, w.tenant, w.subject, k);
      if e.None? then (NoTxn, Idle)
      else
        (PutKey(w.tenant, w.subject, e.value),
         if IsErased(db, w.tenant, w.subject) then Idle else Ready(w, policy, live, k))
  }

  function NewRow(crypto: Crypto, w: WriteArgs, policy: Policy, key: Bytes): Row {
    Row(w.tenant, w.subject, Some(if w.aliases == [] then [w.subject] else w.aliases), w.createdBy, policy,
        w.review, w.epistemic, w.contentHash, crypto.encrypt(w.content, key), w.content)
  }

  function InsertOf(crypto: Crypto, w: WriteArgs, policy: Policy, live: seq<Id>, key: Bytes): NewMemory {
    NewMemory(w.id, NewRow(crypto, w, policy, key), w.derivedFrom, Elements(live), w.superseded)
  }

  /** The listing a rotation works through. */
  function KeysOf(db: Db, t: Tenant): (listed: map<Subject, KeyRow>)
    ensures forall s :: s in listed ==> (t, s) in db.keys && listed[s] == db.keys[(t, s)]
    ensures forall s :: (t, s) in db.keys ==> s in listed
  {
    map k | k in db.keys && k.0 == t :: k.1 := db.keys[k]
  }

  /** One listed key row is rewrapped, skipped, or stops the rotation with an exception. */
  function RewrapStep(
    crypto: Crypto, t: Tenant, outgoing: Custodian, incoming: Custodian, s: Subject, listed: KeyRow): (Txn, bool)
    requires incoming.Kms?
  {
    if listed.Shredded? || listed.envelope.None? then (NoTxn, true)
    else
      var e := listed.envelope.value;
      if e.Wrapped? && e.keyId == incoming.keyId then (NoTxn, Unwrap(crypto, incoming, t, s, e).Some?)
      else
        var k := Unwrap(crypto, outgoing, t, s, e);
        var next := if k.None? then None else Wrap(crypto, incoming, t, s, k.value);
        if next.None? then (NoTxn, false) else (PutKey(t, s, next.value), true)
  }

  /** The transaction a process commits next and the state it continues in. `choice` is
      whatever the step picks: a random key, or the next item of a listing. */
  ghost function Advance(crypto: Crypto, db: Db, p: Proc, choice: string): (Txn, Proc) {
    match p
    case Idle => (NoTxn, Idle)
    case Reading(w, mark, live, next) => (NoTxn, ReadParent(db, w, mark, live, next))
    case Keying(w, policy, live, phase) => GetKeyStep(crypto, db, w, policy, live, phase, choice)
    case Ready(w, policy, live, key) =>
      var m := InsertOf(crypto, w, policy, live, key);
      (Insert(m), if InsertRefusal(db, m).None? && w.indexed then Indexing(w.id) else Idle)
    case Indexing(id) => (AddVector(id), Idle)
    case Checking(t, s, can) => (NoTxn, if db.vecTable && !can then Idle else Seeding(t, s, can))
    case Seeding(t, s, can) =>
      var named := SubjectIds(db, t, s);
      (NoTxn, if named.None? then Idle else SeedingLineage(t, s, can, named.value))
    case SeedingLineage(t, s, can, seed) => (NoTxn, Shredding(t, s, can, seed + LineageIds(db, t, s)))
    case Shredding(t, s, can, seed) => (ShredKey(t, s), Purging(t, s, can, seed))
    case Purging(t, s, can, seed) =>
      (Purge(t, s, seed, can), if PurgeRefused(db, t, s, seed, can) then Idle else Unindexing(PurgeSet(db, t, s, seed)))
    case Unindexing(ids) => if choice in ids then (RemoveVector(choice), Unindexing(ids - {choice})) else (NoTxn, p)
    case Fetching(t, s, c) =>
      var stored := StoredKey(db, t, s);
      (NoTxn, if stored.Some? && stored.value.Raw? && c.Kms? then FetchMigrating(t, s, c, stored.value.key) else Idle)
    case FetchMigrating(t, s, c, k) =>
      var e := Wrap(crypto, c, t, s, k);
      (if e.None? then NoTxn else PutKey(t, s, e.value), Idle)
    case Listing(t, outgoing, incoming) =>
      (NoTxn, Rewrapping(t, outgoing, incoming, KeysOf(db, t)))
    case Rewrapping(t, outgoing, incoming, todo) =>
      if choice !in todo || !incoming.Kms? then (NoTxn, p)
      else
        var (x, goesOn) := RewrapStep(crypto, t, outgoing, incoming, choice, todo[choice]);
        (x, if goesOn then Rewrapping(t, outgoing, incoming, todo - {choice}) else Idle)
    case Deleting(id) => (Delete(id), Unindexing({id}))
    case Opening(created) =>
      (if created then ClearVectors else if db.vecTable then DropOrphans else NoTxn, Reindexing)
    case Reindexing => (AddVector(choice), Reindexing)
    case Editing(x) => (x, Idle)
  }

  // -- The system ---------------------------------------------------------------------------

  /** What happened so far: the first key of each subject, every row ever inserted with
      the parents that were live then, the completed erasures, and the rows they purged. */
  datatype History = History(
    deks: map<(Tenant, Subject), Bytes>, born: map<Id, Row>, parents: map<Id, set<Id>>,
    erased: set<(Tenant, Subject)>, purged: set<Id>)

  datatype System = System(db: Db, procs: map<nat, Proc>, hist: History)

  datatype Event = Begin(pid: nat, verb: Proc) | Step(pid: nat, choice: string) | Crash(pid: nat)

  const START := System(EMPTY_DB, map[], History(map[], map[], map[], {}, {}))

  ghost function Recorded(crypto: Crypto, db: Db, h: History, x: Txn): History {
    match x
    case Insert(m) =>
      if InsertRefusal(db, m).None?
      then h.(born := h.born[m.id := m.row], parents := h.parents[m.id := m.liveParents]) else h
    case CreateKey(t, s, e) =>
      if (t, s) in db.keys || Opens(crypto, t, s, e).None? then h
      else h.(deks := h.deks[(t, s) := Opens(crypto, t, s, e).value])
    case Purge(t, s, seed, can) =>
      if PurgeRefused(db, t, s, seed, can) then h
      else h.(erased := h.erased + {(t, s)}, purged := h.purged + (PurgeSet(db, t, s, seed) * db.rows.Keys))
    case _ => h
  }

  ghost function TxnOf(crypto: Crypto, sys: System, e: Event): Txn {
    if e.Step? && e.pid in sys.procs then Advance(crypto, sys.db, sys.procs[e.pid], e.choice).0 else NoTxn
  }

  ghost function Next(crypto: Crypto, sys: System, e: Event): System {
    match e
    case Begin(pid, verb) =>
      if Initial(verb) && (pid !in sys.procs || sys.procs[pid].Idle?) then sys.(procs := sys.procs[pid := verb]) else sys
    case Crash(pid) => sys.(procs := sys.procs[pid := Idle])
    case Step(pid, choice) =>
      if pid !in sys.procs then sys
      else
        var (x, p) := Advance(crypto, sys.db, sys.procs[pid], choice);
        System(Commit(sys.db, x), sys.procs[pid := p], Recorded(crypto, sys.db, sys.hist, x))
  }

  ghost function Run(crypto: Crypto, events: seq<Event>): System {
    if events == [] then START
    else Next(crypto, Run(crypto, events[..|events| - 1]), events[|events| - 1])
  }

  /** A run in which no memory id is used a second time after its row is gone. */
  ghost predicate FreshIds(crypto: Crypto, sys: System, e: Event) {
    var x := TxnOf(crypto, sys, e);
    x.Insert? && InsertRefusal(sys.db, x.memory).None? ==> x.memory.id !in sys.hist.born
  }

  ghost predicate FreshIdRun(crypto: Crypto, events: seq<Event>) {
    events == [] ||
    (FreshIdRun(crypto, events[..|events| - 1])
     && FreshIds(crypto, Run(crypto, events[..|events| - 1]), events[|events| - 1]))
  }
}
