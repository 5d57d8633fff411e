/** Erasure is final: over every interleaving, an erased subject keeps its tombstone and
    names no row, and a purged memory's vector never comes back. */
module Erasure {
  import opened Common
  import opened Custody
  import opened Database
  import opened Processes

  // -- Tombstones and rows ----------------------------------------------------------------

  /** No row of the tenant names the subject, and its key is a tombstone. */
  ghost predicate Gone(db: Db, t: Tenant, s: Subject) {
    && IsErased(db, t, s)
    && forall id :: id in db.rows && db.rows[id].tenant == t ==> !Names(db.rows[id], s)
  }

  ghost predicate ErasureInv(sys: System) {
    && (forall k :: k in sys.hist.erased ==> Gone(sys.db, k.0, k.1))
    && (forall pid :: pid in sys.procs ==> ProcOk(sys.db, sys.procs[pid]))
  }

  /** A purge only starts behind a tombstone; an edit is never an erasure step. */
  predicate ProcOk(db: Db, p: Proc) {
    (p.Purging? ==> IsErased(db, p.t, p.s)) && (p.Editing? ==> IsEdit(p.edit))
  }

  lemma TombstonesStay(db: Db, x: Txn, t: Tenant, s: Subject)
    requires IsErased(db, t, s)
    ensures IsErased(Commit(db, x), t, s)
  {
  }

  lemma RetiringKeepsNames(rows: map<Id, Row>, t: Tenant, targets: seq<Target>)
    requires Supersede(rows, t, targets).Some?
    ensures Supersede(rows, t, targets).value.Keys == rows.Keys
    ensures forall id :: id in rows ==>
      var a, b := Supersede(rows, t, targets).value[id], rows[id];
      a.tenant == b.tenant && a.subject == b.subject && a.aliases == b.aliases
  {
    SupersedeTouchesReviewOnly(rows, t, targets);
    forall id | id in rows
      ensures var a, b := Supersede(rows, t, targets).value[id], rows[id];
        a.tenant == b.tenant && a.subject == b.subject && a.aliases == b.aliases
    {
      assert Supersede(rows, t, targets).value[id].(review := "") == rows[id].(review := "");
    }
  }

  /** No transaction lets a row naming an erased subject in. */
  lemma CommitKeepsGone(db: Db, x: Txn, t: Tenant, s: Subject)
    requires Gone(db, t, s)
    ensures Gone(Commit(db, x), t, s)
  {
    TombstonesStay(db, x, t, s);
    match x
    case Insert(m) =>
      if InsertRefusal(db, m).None? { RetiringKeepsNames(db.rows[m.id := m.row], m.row.tenant, m.superseded); }
    case SupersedeOnly(t', targets) =>
      if Supersede(db.rows, t', targets).Some? { RetiringKeepsNames(db.rows, t', targets); }
    case Purge(t', s', seed, can) =>
      if !PurgeRefused(db, t', s', seed, can) { PurgeIsExact(db, t', s', seed); }
    case _ =>
  }

  lemma StepKeepsErasure(crypto: Crypto, sys: System, e: Event)
    requires ErasureInv(sys)
    ensures ErasureInv(Next(crypto, sys, e))
    ensures sys.hist.erased <= Next(crypto, sys, e).hist.erased
  {
    var x, next := TxnOf(crypto, sys, e), Next(crypto, sys, e);
    forall k | k in sys.hist.erased ensures Gone(next.db, k.0, k.1) {
      CommitKeepsGone(sys.db, x, k.0, k.1);
    }
    StepKeepsProcs(crypto, sys, e);
    if x.Purge? && !PurgeRefused(sys.db, x.tenant, x.subject, x.seed, x.canEraseVectors) {
      PurgeComesAfterShred(crypto, sys, e);
      TombstonesStay(sys.db, x, x.tenant, x.subject);
      PurgeIsExact(sys.db, x.tenant, x.subject, x.seed);
    }
  }

  lemma StepKeepsProcs(crypto: Crypto, sys: System, e: Event)
    requires forall pid :: pid in sys.procs ==> ProcOk(sys.db, sys.procs[pid])
    ensures forall pid :: pid in Next(crypto, sys, e).procs ==> ProcOk(Next(crypto, sys, e).db, Next(crypto, sys, e).procs[pid])
  {
    var x, next := TxnOf(crypto, sys, e), Next(crypto, sys, e);
    forall pid | pid in next.procs ensures ProcOk(next.db, next.procs[pid]) {
      if pid in sys.procs && sys.procs[pid] == next.procs[pid] && sys.procs[pid].Purging? {
        TombstonesStay(sys.db, x, sys.procs[pid].t, sys.procs[pid].s);
      }
    }
  }

  lemma PurgeComesAfterShred(crypto: Crypto, sys: System, e: Event)
    requires forall pid :: pid in sys.procs ==> ProcOk(sys.db, sys.procs[pid])
    requires TxnOf(crypto, sys, e).Purge?
    ensures IsErased(sys.db, TxnOf(crypto, sys, e).tenant, TxnOf(crypto, sys, e).subject)
  {
    assert ProcOk(sys.db, sys.procs[e.pid]);
  }

  lemma {:induction false} RunKeepsErasure(crypto: Crypto, events: seq<Event>)
    ensures ErasureInv(Run(crypto, events))
  {
    if events != [] {
      RunKeepsErasure(crypto, events[..|events| - 1]);
      StepKeepsErasure(crypto, Run(crypto, events[..|events| - 1]), events[|events| - 1]);
    }
  }

  /** Once a subject's purge has committed, in every later state of every run its key is
      a tombstone and no row of its tenant names it as subject or alias. */
  lemma {:induction false} ErasureIsFinal(crypto: Crypto, events: seq<Event>, n: nat, t: Tenant, s: Subject)
    requires n <= |events| && (t, s) in Run(crypto, events[..n]).hist.erased
    ensures Gone(Run(crypto, events).db, t, s)
    decreases |events|
  {
    RunKeepsErasure(crypto, events);
    ErasedStaysRecorded(crypto, events, n, (t, s));
  }

  lemma {:induction false} ErasedStaysRecorded(crypto: Crypto, events: seq<Event>, n: nat, k: (Tenant, Subject))
    requires n <= |events| && k in Run(crypto, events[..n]).hist.erased
    ensures k in Run(crypto, events).hist.erased
    decreases |events|
  {
    if n == |events| {
      assert events[..n] == events;
    } else {
      var before := events[..|events| - 1];
      assert before[..n] == events[..n];
      ErasedStaysRecorded(crypto, before, n, k);
    }
  }

  /** The last step of an erasure does what it promises: when a process in state Purging
      takes its step and is not rolled back, the subject is recorded as erased. */
  lemma PurgeStepErases(crypto: Crypto, events: seq<Event>, pid: nat, choice: string)
    requires pid in Run(crypto, events).procs && Run(crypto, events).procs[pid].Purging?
    ensures var sys := Run(crypto, events);
      var p := sys.procs[pid];
      var next := Run(crypto, events + [Step(pid, choice)]);
      !PurgeRefused(sys.db, p.t, p.s, p.seed, p.canErase) ==> (p.t, p.s) in next.hist.erased && Gone(next.db, p.t, p.s)
  {
    var all := events + [Step(pid, choice)];
    assert all[..|all| - 1] == events;
    RunKeepsErasure(crypto, all);
  }

  // -- Purged memories and their vectors ------------------------------------------------------

  /** A purged memory has neither a row nor a vector, and every row was born. */
  ghost predicate VectorInv(sys: System) {
    && sys.db.rows.Keys + sys.hist.purged <= sys.hist.born.Keys
    && sys.hist.purged !! sys.db.rows.Keys
    && sys.hist.purged !! sys.db.vecs
    && (!sys.db.vecTable ==> sys.db.vecs == {})
  }

  lemma StepKeepsVectors(crypto: Crypto, sys: System, e: Event)
    requires VectorInv(sys) && FreshIds(crypto, sys, e)
    ensures VectorInv(Next(crypto, sys, e))
    ensures sys.hist.purged <= Next(crypto, sys, e).hist.purged
  {
    CommitKeepsVectors(crypto, sys, TxnOf(crypto, sys, e));
  }

  lemma CommitKeepsVectors(crypto: Crypto, sys: System, x: Txn)
    requires VectorInv(sys)
    requires x.Insert? && InsertRefusal(sys.db, x.memory).None? ==> x.memory.id !in sys.hist.born
    ensures VectorInv(sys.(db := Commit(sys.db, x), hist := Recorded(crypto, sys.db, sys.hist, x)))
    ensures sys.hist.purged <= Recorded(crypto, sys.db, sys.hist, x).purged
  {
    match x
    case Insert(m) =>
      if InsertRefusal(sys.db, m).None? { RetiringKeepsNames(sys.db.rows[m.id := m.row], m.row.tenant, m.superseded); }
    case SupersedeOnly(t, targets) =>
      if Supersede(sys.db.rows, t, targets).Some? { RetiringKeepsNames(sys.db.rows, t, targets); }
    case Purge(t, s, seed, can) =>
      if !PurgeRefused(sys.db, t, s, seed, can) { PurgeIsExact(sys.db, t, s, seed); }
    case _ =>
  }

  /** Whatever writers, rebuilds and crashes do around it, the vector of a memory that a
      hard purge has deleted is never in the shared table again. */
  lemma {:induction false} PurgedVectorsNeverReturn(crypto: Crypto, events: seq<Event>)
    requires FreshIdRun(crypto, events)
    ensures VectorInv(Run(crypto, events))
  {
    if events != [] {
      PurgedVectorsNeverReturn(crypto, events[..|events| - 1]);
      StepKeepsVectors(crypto, Run(crypto, events[..|events| - 1]), events[|events| - 1]);
    }
  }

  lemma {:induction false} PurgedStaysRecorded(crypto: Crypto, events: seq<Event>, n: nat)
    requires FreshIdRun(crypto, events) && n <= |events|
    ensures Run(crypto, events[..n]).hist.purged <= Run(crypto, events).hist.purged
    decreases |events|
  {
    if n == |events| {
      assert events[..n] == events;
    } else {
      var before := events[..|events| - 1];
      assert before[..n] == events[..n];
      PurgedStaysRecorded(crypto, before, n);
    }
  }

  // -- Parents that are gone ------------------------------------------------------------------

  /** In a run with fresh ids a row once gone, purged or deleted alone, stays gone. */
  lemma {:induction false} GoneStaysGone(crypto: Crypto, events: seq<Event>, n: nat, p: Id)
    requires FreshIdRun(crypto, events) && n <= |events|
    requires p in Run(crypto, events[..n]).hist.born && p !in Run(crypto, events[..n]).db.rows
    ensures p in Run(crypto, events).hist.born && p !in Run(crypto, events).db.rows
    decreases |events|
  {
    if n == |events| {
      assert events[..n] == events;
    } else {
      var before := events[..|events| - 1];
      assert before[..n] == events[..n];
      GoneStaysGone(crypto, before, n, p);
      OnlyInsertsAdd(Run(crypto, before).db, TxnOf(crypto, Run(crypto, before), events[|events| - 1]), p);
    }
  }

  lemma OnlyInsertsAdd(db: Db, x: Txn, p: Id)
    requires p !in db.rows
    ensures p in Commit(db, x).rows ==> x.Insert? && x.memory.id == p && InsertRefusal(db, x.memory).None?
  {
    match x
    case Insert(m) =>
      if InsertRefusal(db, m).None? { RetiringKeepsNames(db.rows[m.id := m.row], m.row.tenant, m.superseded); }
    case SupersedeOnly(t, targets) =>
      if Supersede(db.rows, t, targets).Some? { RetiringKeepsNames(db.rows, t, targets); }
    case _ =>
  }

  predicate AboutToInsert(sys: System, pid: nat) {
    pid in sys.procs && sys.procs[pid].Ready?
  }

  function Pending(crypto: Crypto, sys: System, pid: nat): NewMemory
    requires AboutToInsert(sys, pid)
  {
    var r := sys.procs[pid];
    InsertOf(crypto, r.w, r.policy, r.live, r.key)
  }

  /** In every run: a writer about to insert is refused for a missing parent exactly when no
      subject it names is erased and some parent it was labelled from is not stored now. */
  lemma ParentGoneIff(crypto: Crypto, events: seq<Event>, pid: nat, choice: string)
    requires AboutToInsert(Run(crypto, events), pid)
    ensures var sys := Run(crypto, events);
      var m := Pending(crypto, sys, pid);
      && (InsertRefusal(sys.db, m) == Some(ParentGone) <==>
            !NamesErased(sys.db, m.row) && exists p :: p in sys.procs[pid].live && p !in sys.db.rows)
      && (InsertRefusal(sys.db, m).Some? ==>
            Run(crypto, events + [Step(pid, choice)]).db == sys.db && Run(crypto, events + [Step(pid, choice)]).procs[pid] == Idle)
  {
    var all := events + [Step(pid, choice)];
    assert all[..|all| - 1] == events;
  }

  /** A write whose policy was read from a parent that was removed since, by an erasure or
      alone, is refused, and nothing is written. */
  lemma StaleParentIsRefused(crypto: Crypto, events: seq<Event>, n: nat, pid: nat, choice: string, p: Id)
    requires FreshIdRun(crypto, events) && n <= |events|
    requires p in Run(crypto, events[..n]).hist.born && p !in Run(crypto, events[..n]).db.rows
    requires AboutToInsert(Run(crypto, events), pid) && p in Run(crypto, events).procs[pid].live
    ensures Run(crypto, events + [Step(pid, choice)]).db == Run(crypto, events).db
    ensures Run(crypto, events + [Step(pid, choice)]).procs[pid] == Idle
  {
    GoneStaysGone(crypto, events, n, p);
    ParentGoneIff(crypto, events, pid, choice);
  }

  /** Without fresh ids a removed parent passes the check only because its id was stored again:
      some later insert of it committed. */
  lemma {:induction false} ParentReturnsOnlyByReuse(crypto: Crypto, events: seq<Event>, n: nat, p: Id)
    requires n <= |events| && p !in Run(crypto, events[..n]).db.rows && p in Run(crypto, events).db.rows
    ensures exists k :: n <= k < |events| && Reinserts(crypto, events, k, p)
    decreases |events|
  {
    assert events[..|events|] == events;
    if n < |events| {
      var before := events[..|events| - 1];
      assert before[..n] == events[..n];
      if p in Run(crypto, before).db.rows {
        ParentReturnsOnlyByReuse(crypto, before, n, p);
        var k :| n <= k < |before| && Reinserts(crypto, before, k, p);
        assert before[..k] == events[..k];
        assert Reinserts(crypto, events, k, p);
      } else {
        OnlyInsertsAdd(Run(crypto, before).db, TxnOf(crypto, Run(crypto, before), events[|events| - 1]), p);
        assert Reinserts(crypto, events, |events| - 1, p);
      }
    }
  }

  /** Event `k` commits an insert under the id. */
  ghost predicate Reinserts(crypto: Crypto, events: seq<Event>, k: nat, p: Id)
    requires k < |events|
  {
    var sys := Run(crypto, events[..k]);
    var x := TxnOf(crypto, sys, events[k]);
    x.Insert? && x.memory.id == p && InsertRefusal(sys.db, x.memory).None?
  }
}
