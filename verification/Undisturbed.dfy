/** What a verb achieves when nobody interferes: a write commits, a read migrates its key, an
    erasure erases. */
module Undisturbed {
  import opened Common
  import opened Custody
  import opened Policy
  import opened Database
  import opened Processes
  import Erasure
  import Written

  /** One process takes `n` steps and nobody else does; every draw is the same. */
  ghost function Alone(crypto: Crypto, sys: System, pid: nat, choice: string, n: nat): System
    decreases n
  {
    if n == 0 then sys else Alone(crypto, Next(crypto, sys, Step(pid, choice)), pid, choice, n - 1)
  }

  lemma {:induction false} AloneAgain(crypto: Crypto, sys: System, pid: nat, choice: string, m: nat, n: nat)
    ensures Alone(crypto, Alone(crypto, sys, pid, choice, m), pid, choice, n) == Alone(crypto, sys, pid, choice, m + n)
    decreases m
  {
    if m > 0 { AloneAgain(crypto, Next(crypto, sys, Step(pid, choice)), pid, choice, m - 1, n); }
  }

  /** The process is in this state and the file holds this. */
  ghost predicate Stands(sys: System, pid: nat, db: Db, p: Proc) {
    sys.db == db && pid in sys.procs && sys.procs[pid] == p
  }

  lemma OneStep(crypto: Crypto, sys: System, pid: nat, choice: string, p: Proc)
    requires pid in sys.procs && sys.procs[pid] == p
    ensures var (x, next) := Advance(crypto, sys.db, p, choice);
      Stands(Alone(crypto, sys, pid, choice, 1), pid, Commit(sys.db, x), next)
  {
    var next := Next(crypto, sys, Step(pid, choice));
    assert Alone(crypto, next, pid, choice, 0) == next;
  }

  // -- Reading the parents -----------------------------------------------------------------------------

  /** The locals of a writer that has read its parents. */
  ghost predicate HasRead(sys: System, pid: nat, db: Db, w: WriteArgs) {
    && sys.db == db && pid in sys.procs && sys.procs[pid].Keying? && sys.procs[pid].w == w && sys.procs[pid].phase.Lookup?
    && forall p :: p in sys.procs[pid].live ==> p in db.rows
  }

  lemma {:induction false} ParentsAreRead(
    crypto: Crypto, sys: System, pid: nat, choice: string, w: WriteArgs, mark: Mark, live: seq<Id>, next: nat)
    requires Stands(sys, pid, sys.db, Reading(w, mark, live, next)) && next <= |w.derivedFrom|
    requires forall p :: p in live ==> p in sys.db.rows
    ensures HasRead(Alone(crypto, sys, pid, choice, |w.derivedFrom| - next + 1), pid, sys.db, w)
    decreases |w.derivedFrom| - next
  {
    OneStep(crypto, sys, pid, choice, Reading(w, mark, live, next));
    if next < |w.derivedFrom| {
      var one := Alone(crypto, sys, pid, choice, 1);
      assert one.procs[pid] == ReadParent(sys.db, w, mark, live, next);
      ParentsAreRead(crypto, one, pid, choice, w, one.procs[pid].mark, one.procs[pid].live, next + 1);
      AloneAgain(crypto, sys, pid, choice, 1, |w.derivedFrom| - next);
    }
  }

  // -- Getting the key ------------------------------------------------------------------------------------

  /** The custodian of the writer gets at the key: there is none yet, or the stored envelope opens,
      or is raw and can be kept or wrapped. */
  predicate KeyIsUsable(crypto: Crypto, db: Db, w: WriteArgs) {
    if (w.tenant, w.subject) !in db.keys then true
    else
      match db.keys[(w.tenant, w.subject)]
      case Shredded => false
      case Active(None) => false
      case Active(Some(Raw(k))) => w.custodian.RawLocal? || Wrappable(k)
      case Active(Some(Wrapped(keyId, x))) =>
        w.custodian.RawLocal? || (keyId == w.custodian.keyId && crypto.open(w.custodian.root, w.tenant, w.subject, x).Some?)
  }

  /** The writer holds a key; nothing but its own subject's key row may have changed. */
  ghost predicate HoldsKey(sys: System, pid: nat, db: Db, w: WriteArgs, live: seq<Id>) {
    && sys.db == db.(keys := sys.db.keys) && !IsErased(sys.db, w.tenant, w.subject)
    && (forall k :: k in sys.db.keys && k != (w.tenant, w.subject) ==> k in db.keys && sys.db.keys[k] == db.keys[k])
    && pid in sys.procs && sys.procs[pid].Ready? && sys.procs[pid].w == w && sys.procs[pid].live == live
  }

  /** A key is there: the writer goes on with it, or wraps it first. */
  lemma StoredKeyIsUsed(
    crypto: Crypto, sys: System, pid: nat, choice: string, w: WriteArgs, policy: Policy, live: seq<Id>) returns (n: nat)
    requires Stands(sys, pid, sys.db, Keying(w, policy, live, Lookup)) && KeyIsUsable(crypto, sys.db, w)
    requires (w.tenant, w.subject) in sys.db.keys
    ensures HoldsKey(Alone(crypto, sys, pid, choice, n), pid, sys.db, w, live)
  {
    var p := Keying(w, policy, live, Lookup);
    OneStep(crypto, sys, pid, choice, p);
    var one := Alone(crypto, sys, pid, choice, 1);
    n := 1;
    if one.procs[pid].Keying? {
      OneStep(crypto, one, pid, choice, one.procs[pid]);
      AloneAgain(crypto, sys, pid, choice, 1, 1);
      n := 2;
    }
  }

  /** No key is there: the writer draws one, stores it wrapped, and reads it back. */
  lemma NewKeyIsStored(
    crypto: Crypto, sys: System, pid: nat, choice: string, w: WriteArgs, policy: Policy, live: seq<Id>)
    requires Stands(sys, pid, sys.db, Keying(w, policy, live, Lookup)) && |choice| == 32
    requires (w.tenant, w.subject) !in sys.db.keys
    ensures HoldsKey(Alone(crypto, sys, pid, choice, 3), pid, sys.db, w, live)
  {
    OneStep(crypto, sys, pid, choice, Keying(w, policy, live, Lookup));
    var one := Alone(crypto, sys, pid, choice, 1);
    assert Stands(one, pid, sys.db, Keying(w, policy, live, Creating(choice)));
    KeyIsCreated(crypto, one, pid, choice, w, policy, live);
    AloneAgain(crypto, sys, pid, choice, 1, 2);
  }

  lemma KeyIsCreated(crypto: Crypto, sys: System, pid: nat, choice: string, w: WriteArgs, policy: Policy, live: seq<Id>)
    requires Stands(sys, pid, sys.db, Keying(w, policy, live, Creating(choice))) && |choice| == 32
    requires (w.tenant, w.subject) !in sys.db.keys
    ensures HoldsKey(Alone(crypto, sys, pid, choice, 2), pid, sys.db, w, live)
  {
    OneStep(crypto, sys, pid, choice, Keying(w, policy, live, Creating(choice)));
    var e := Wrap(crypto, w.custodian, w.tenant, w.subject, choice);
    var one := Alone(crypto, sys, pid, choice, 1);
    assert Stands(one, pid, KeyCreated(sys.db, w.tenant, w.subject, e.value), Keying(w, policy, live, Rereading(choice)));
    OneStep(crypto, one, pid, choice, Keying(w, policy, live, Rereading(choice)));
    AloneAgain(crypto, sys, pid, choice, 1, 1);
  }

  // -- Committing -----------------------------------------------------------------------------------------

  /** Nothing refuses the write: its id is free, nobody it names is erased, and the rows it retires
      are as its caller saw them. */
  ghost predicate MayCommit(db: Db, w: WriteArgs) {
    && w.id !in db.rows && !IsErased(db, w.tenant, w.subject) && (forall s :: s in w.aliases ==> !IsErased(db, w.tenant, s))
    && OnceEach(w.superseded)
    && forall i :: 0 <= i < |w.superseded| ==> w.superseded[i].id != w.id && Unchanged(db.rows, w.tenant, w.superseded[i])
  }

  lemma ReadyCommits(crypto: Crypto, sys: System, pid: nat, choice: string, db: Db, w: WriteArgs, live: seq<Id>)
    requires HoldsKey(sys, pid, db, w, live) && MayCommit(db, w) && forall p :: p in live ==> p in db.rows
    ensures w.id in Alone(crypto, sys, pid, choice, 1).db.rows
  {
    var p := sys.procs[pid];
    var m := InsertOf(crypto, w, p.policy, live, p.key);
    OneStep(crypto, sys, pid, choice, p);
    var rows := sys.db.rows[m.id := m.row];
    SupersedeMeans(rows, w.tenant, w.superseded);
    forall i | 0 <= i < |w.superseded| ensures Unchanged(rows, w.tenant, w.superseded[i]) {
      assert Unchanged(db.rows, w.tenant, w.superseded[i]);
    }
    assert InsertRefusal(sys.db, m).None?;
  }

  lemma KeyIsGot(
    crypto: Crypto, sys: System, pid: nat, choice: string, w: WriteArgs, policy: Policy, live: seq<Id>) returns (n: nat)
    requires Stands(sys, pid, sys.db, Keying(w, policy, live, Lookup))
    requires KeyIsUsable(crypto, sys.db, w) && |choice| == 32
    ensures HoldsKey(Alone(crypto, sys, pid, choice, n), pid, sys.db, w, live)
  {
    if (w.tenant, w.subject) in sys.db.keys {
      n := StoredKeyIsUsed(crypto, sys, pid, choice, w, policy, live);
    } else {
      NewKeyIsStored(crypto, sys, pid, choice, w, policy, live);
      n := 3;
    }
  }

  lemma ReadWriterCommits(crypto: Crypto, sys: System, pid: nat, choice: string, db: Db, w: WriteArgs) returns (n: nat)
    requires HasRead(sys, pid, db, w) && MayCommit(db, w) && KeyIsUsable(crypto, db, w) && |choice| == 32
    ensures w.id in Alone(crypto, sys, pid, choice, n).db.rows
  {
    var p := sys.procs[pid];
    var steps := KeyIsGot(crypto, sys, pid, choice, w, p.policy, p.live);
    ReadyCommits(crypto, Alone(crypto, sys, pid, choice, steps), pid, choice, db, w, p.live);
    AloneAgain(crypto, sys, pid, choice, steps, 1);
    n := steps + 1;
  }

  /** A write that nothing refuses and nobody disturbs commits: after some steps of its own, its row
      is stored. */
  lemma UndisturbedWriteCommits(crypto: Crypto, sys: System, pid: nat, choice: string, w: WriteArgs)
    requires Stands(sys, pid, sys.db, Reading(w, StartMark(w.own), [], 0))
    requires MayCommit(sys.db, w) && KeyIsUsable(crypto, sys.db, w) && |choice| == 32
    ensures exists n :: w.id in Alone(crypto, sys, pid, choice, n).db.rows
  {
    var first := |w.derivedFrom| + 1;
    ParentsAreRead(crypto, sys, pid, choice, w, StartMark(w.own), [], 0);
    var n := ReadWriterCommits(crypto, Alone(crypto, sys, pid, choice, first), pid, choice, sys.db, w);
    AloneAgain(crypto, sys, pid, choice, first, n);
  }

  // -- A reader's key -------------------------------------------------------------------------------------

  /** A reader with a wrapping custodian leaves a raw key wrapped under that custodian, in two steps. */
  lemma UndisturbedReadMigrates(crypto: Crypto, sys: System, pid: nat, choice: string, t: Tenant, s: Subject, c: Custodian, key: Bytes)
    requires crypto.Valid() && WellKeyed(crypto, c) && c.Kms? && Stands(sys, pid, sys.db, Fetching(t, s, c))
    requires StoredKey(sys.db, t, s) == Some(Raw(key)) && Wrappable(key)
    ensures var stored := StoredKey(Alone(crypto, sys, pid, choice, 2).db, t, s);
      stored.Some? && stored.value.Wrapped? && stored.value.keyId == c.keyId && Opens(crypto, t, s, stored.value) == Some(key)
  {
    OneStep(crypto, sys, pid, choice, Fetching(t, s, c));
    var one := Alone(crypto, sys, pid, choice, 1);
    OneStep(crypto, one, pid, choice, FetchMigrating(t, s, c, key));
    AloneAgain(crypto, sys, pid, choice, 1, 1);
    WrapOpens(crypto, c, t, s, key);
  }

  // -- Erasing ----------------------------------------------------------------------------------------------

  /** In every run, a purge by a process that can delete vectors, or over a file without any, goes
      through: the subject is erased. */
  lemma PurgeGoesThrough(crypto: Crypto, events: seq<Event>, pid: nat, choice: string)
    requires var sys := Run(crypto, events);
      pid in sys.procs && sys.procs[pid].Purging? && (sys.procs[pid].canErase || !sys.db.vecTable)
    ensures var p := Run(crypto, events).procs[pid];
      var next := Run(crypto, events + [Step(pid, choice)]);
      (p.t, p.s) in next.hist.erased && Erasure.Gone(next.db, p.t, p.s)
  {
    Written.RunsKeepTheStory(crypto, events);
    Erasure.PurgeStepErases(crypto, events, pid, choice);
    var sys := Run(crypto, events);
    assert forall id :: id in sys.db.rows ==> sys.db.rows[id].aliases.Some?;
  }

  /** An erasure by a process that cannot delete the vectors of the file changes nothing, and in
      particular leaves the key. */
  lemma ErasureWithoutVectorsIsRefused(crypto: Crypto, sys: System, pid: nat, choice: string, t: Tenant, s: Subject, n: nat)
    requires Stands(sys, pid, sys.db, Checking(t, s, false)) && sys.db.vecTable
    ensures Alone(crypto, sys, pid, choice, n).db == sys.db
  {
    if n > 0 {
      OneStep(crypto, sys, pid, choice, Checking(t, s, false));
      AloneAgain(crypto, sys, pid, choice, 1, n - 1);
      IdleChangesNothing(crypto, Alone(crypto, sys, pid, choice, 1), pid, choice, n - 1);
    }
  }

  lemma {:induction false} IdleChangesNothing(crypto: Crypto, sys: System, pid: nat, choice: string, n: nat)
    requires Stands(sys, pid, sys.db, Idle)
    ensures Alone(crypto, sys, pid, choice, n).db == sys.db
    decreases n
  {
    if n > 0 {
      OneStep(crypto, sys, pid, choice, Idle);
      AloneAgain(crypto, sys, pid, choice, 1, n - 1);
      IdleChangesNothing(crypto, Alone(crypto, sys, pid, choice, 1), pid, choice, n - 1);
    }
  }

  /** Every stored memory about the subject, as its subject or as an alias. */
  function SeedsOf(db: Db, t: Tenant, s: Subject): set<Id> {
    set id | id in db.rows && db.rows[id].tenant == t
      && (db.rows[id].subject == s || (db.rows[id].aliases.Some? && s in db.rows[id].aliases.value))
  }

  lemma SeedsAreRead(crypto: Crypto, sys: System, pid: nat, choice: string, t: Tenant, s: Subject, can: bool) returns (seed: set<Id>)
    requires Stands(sys, pid, sys.db, Seeding(t, s, can)) && SubjectIds(sys.db, t, s).Some?
    ensures Stands(Alone(crypto, sys, pid, choice, 2), pid, sys.db, Shredding(t, s, can, seed)) && SeedsOf(sys.db, t, s) <= seed
  {
    var named := SubjectIds(sys.db, t, s).value;
    OneStep(crypto, sys, pid, choice, Seeding(t, s, can));
    OneStep(crypto, Alone(crypto, sys, pid, choice, 1), pid, choice, SeedingLineage(t, s, can, named));
    AloneAgain(crypto, sys, pid, choice, 1, 1);
    seed := named + LineageIds(sys.db, t, s);
  }

  /** An erasure that nobody disturbs reaches its purge in four steps, with the key shredded and all
      memories about the subject as seeds. */
  lemma ErasureReachesPurge(crypto: Crypto, sys: System, pid: nat, choice: string, t: Tenant, s: Subject, can: bool)
    requires Stands(sys, pid, sys.db, Checking(t, s, can)) && (can || !sys.db.vecTable)
    requires forall id :: id in sys.db.rows ==> sys.db.rows[id].aliases.Some?
    ensures exists seed ::
      SeedsOf(sys.db, t, s) <= seed && Stands(Alone(crypto, sys, pid, choice, 4), pid, sys.db.(keys := sys.db.keys[(t, s) := Shredded]), Purging(t, s, can, seed))
  {
    OneStep(crypto, sys, pid, choice, Checking(t, s, can));
    var one := Alone(crypto, sys, pid, choice, 1);
    var seed := SeedsAreRead(crypto, one, pid, choice, t, s, can);
    var three := Alone(crypto, one, pid, choice, 2);
    OneStep(crypto, three, pid, choice, Shredding(t, s, can, seed));
    AloneAgain(crypto, sys, pid, choice, 1, 2);
    AloneAgain(crypto, sys, pid, choice, 3, 1);
  }

  // -- Single rows and edits ----------------------------------------------------------------------------------

  /** A single-row purge removes the row, its edges and lineage, and with its second step the vector. */
  lemma DeletedRowGoes(crypto: Crypto, sys: System, pid: nat, id: Id)
    requires Stands(sys, pid, sys.db, Deleting(id))
    ensures var next := Alone(crypto, sys, pid, id, 2).db;
      && next.rows == sys.db.rows - {id} && id !in next.vecs && next.vecs >= sys.db.vecs - {id}
      && (forall e :: e in next.edges <==> e in sys.db.edges && e.0 != id && e.1 != id)
      && id !in next.lineage && next.keys == sys.db.keys
  {
    OneStep(crypto, sys, pid, id, Deleting(id));
    var one := Alone(crypto, sys, pid, id, 1);
    OneStep(crypto, one, pid, id, Unindexing({id}));
    AloneAgain(crypto, sys, pid, id, 1, 1);
    assert Alone(crypto, sys, pid, id, 2).db.rows == sys.db.rows - {id} by {
      assert WithoutRows(sys.db, {id}).rows == sys.db.rows - {id};
    }
  }

  /** A writer that looks for the key of an erased subject gives up at once. */
  lemma ErasedLookupGivesUp(crypto: Crypto, sys: System, pid: nat, choice: string, w: WriteArgs, policy: Policy, live: seq<Id>)
    requires Stands(sys, pid, sys.db, Keying(w, policy, live, Lookup)) && IsErased(sys.db, w.tenant, w.subject)
    ensures Stands(Alone(crypto, sys, pid, choice, 1), pid, sys.db, Idle)
  {
    OneStep(crypto, sys, pid, choice, Keying(w, policy, live, Lookup));
  }

  /** An edit by itself: an edge is added, a stored row gets the values asked for, and rows are
      retired if they are as the caller saw them. */
  lemma EditsCommit(crypto: Crypto, sys: System, pid: nat, choice: string, x: Txn)
    requires Stands(sys, pid, sys.db, Editing(x)) && IsEdit(x)
    ensures var next := Alone(crypto, sys, pid, choice, 1).db;
      match x
      case AddEdge(c, p) => next == sys.db.(edges := sys.db.edges + {(c, p)})
      case Touch(id, review, epistemic, createdBy) =>
        if id in sys.db.rows then
          id in next.rows
          && next.rows[id] == sys.db.rows[id].(review := review, epistemic := epistemic, createdBy := createdBy)
          && next.rows - {id} == sys.db.rows - {id} && next.(rows := map[]) == sys.db.(rows := map[])
        else next == sys.db
      case SupersedeOnly(t, targets) =>
        OnceEach(targets) ==>
          && next.(rows := map[]) == sys.db.(rows := map[]) && next.rows.Keys == sys.db.rows.Keys
          && forall id :: id in next.rows ==>
               next.rows[id] ==
                 if IsTarget(targets, id) && (forall i :: 0 <= i < |targets| ==> Unchanged(sys.db.rows, t, targets[i]))
                 then sys.db.rows[id].(review := "superseded") else sys.db.rows[id]
      case _ => true
  {
    OneStep(crypto, sys, pid, choice, Editing(x));
    if x.SupersedeOnly? && OnceEach(x.targets) { SupersedeMeans(sys.db.rows, x.tenant, x.targets); }
  }

  /** Opening the file puts the vectors right: a process that created the table empties it, any other
      drops the vectors without a row; rows and keys stay. */
  lemma OpeningCleansVectors(crypto: Crypto, sys: System, pid: nat, choice: string, created: bool)
    requires Stands(sys, pid, sys.db, Opening(created))
    ensures var next := Alone(crypto, sys, pid, choice, 1).db;
      && next.(vecs := {}) == sys.db.(vecs := {})
      && next.vecs == if created then {} else if sys.db.vecTable then set v | v in sys.db.vecs && v in sys.db.rows else sys.db.vecs
  {
    OneStep(crypto, sys, pid, choice, Opening(created));
  }
}
