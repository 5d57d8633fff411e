/** Labels only join upward: over whole runs, whoever may see a derived memory also meets
    the classification and every role gate of all its ancestors. */
module Inheritance {
  import opened Custody
  import opened Policy
  import opened Database
  import opened Processes

  /** Every id in `live` names a memory that existed when it was read, and `test` holds of its policy. */
  ghost predicate Covered(h: History, live: seq<Id>, test: Policy -> bool) {
    forall i :: 0 <= i < |live| ==> live[i] in h.born && test(h.born[live[i]].policy)
  }

  ghost predicate ProcOk(h: History, p: Proc) {
    match p
    case Reading(w, mark, live, _) =>
      && CleanMark(mark) && MarkCovers(mark, w.own)
      && Covered(h, live, q => MarkCovers(mark, q)) && (w.derivedFrom == [] ==> live == [])
    case Keying(w, policy, live, _) => Covered(h, live, q => Dominates(policy, q)) && Dominates(policy, w.own)
    case Ready(w, policy, live, _) => Covered(h, live, q => Dominates(policy, q)) && Dominates(policy, w.own)
    case Editing(x) => IsEdit(x)
    case _ => true
  }

  /** Stored policies are the ones born, and every birth dominates its live parents' policies. */
  ghost predicate LabelInv(sys: System) {
    && sys.hist.parents.Keys == sys.hist.born.Keys
    && (forall id :: id in sys.db.rows ==> StillBorn(sys.hist, id, sys.db.rows[id]))
    && (forall id, p :: id in sys.hist.parents && p in sys.hist.parents[id] ==> Inherits(sys.hist, id, p))
    && (forall pid :: pid in sys.procs ==> ProcOk(sys.hist, sys.procs[pid]))
  }

  predicate StillBorn(h: History, id: Id, row: Row) {
    id in h.born && h.born[id].policy == row.policy && h.born[id].tenant == row.tenant
  }

  predicate Inherits(h: History, child: Id, parent: Id) {
    child in h.born && parent in h.born && Dominates(h.born[child].policy, h.born[parent].policy)
  }

  /** What one step may add to the history when ids are fresh: a birth, nothing else changes. */
  ghost predicate Grows(a: History, b: History) {
    && (forall id :: id in a.born ==> id in b.born && b.born[id] == a.born[id])
    && (forall id :: id in a.parents ==> id in b.parents && b.parents[id] == a.parents[id])
  }

  lemma StepGrows(crypto: Crypto, sys: System, e: Event)
    requires FreshIds(crypto, sys, e) && sys.hist.parents.Keys == sys.hist.born.Keys
    ensures Grows(sys.hist, Next(crypto, sys, e).hist)
  {
  }

  lemma RetiringKeepsPolicies(rows: map<Id, Row>, t: Tenant, targets: seq<Target>)
    requires Supersede(rows, t, targets).Some?
    ensures var after := Supersede(rows, t, targets).value;
      after.Keys == rows.Keys
      && forall id :: id in rows ==> after[id].policy == rows[id].policy && after[id].tenant == rows[id].tenant
  {
    SupersedeTouchesReviewOnly(rows, t, targets);
    var after := Supersede(rows, t, targets).value;
    forall id | id in rows ensures after[id].policy == rows[id].policy && after[id].tenant == rows[id].tenant {
      assert after[id].(review := "") == rows[id].(review := "");
    }
  }

  /** Policy columns are never updated: a row either stays, goes, or is born. */
  lemma CommitKeepsPolicies(db: Db, x: Txn, id: Id)
    requires id in Commit(db, x).rows
    ensures id in db.rows ==>
      Commit(db, x).rows[id].policy == db.rows[id].policy && Commit(db, x).rows[id].tenant == db.rows[id].tenant
    ensures id !in db.rows ==> (
      && x.Insert? && InsertRefusal(db, x.memory).None? && x.memory.id == id
      && Commit(db, x).rows[id].policy == x.memory.row.policy && Commit(db, x).rows[id].tenant == x.memory.row.tenant)
  {
    match x
    case Insert(m) =>
      if InsertRefusal(db, m).None? { RetiringKeepsPolicies(db.rows[m.id := m.row], m.row.tenant, m.superseded); }
    case SupersedeOnly(t, targets) =>
      if Supersede(db.rows, t, targets).Some? { RetiringKeepsPolicies(db.rows, t, targets); }
    case _ =>
  }

  lemma ProcStaysOk(a: History, b: History, p: Proc)
    requires Grows(a, b) && ProcOk(a, p)
    ensures ProcOk(b, p)
  {
  }

  /** A writer's mark keeps covering what it has read. */
  lemma AdvanceKeepsProc(crypto: Crypto, db: Db, h: History, p: Proc, choice: string)
    requires ProcOk(h, p) && forall id :: id in db.rows ==> StillBorn(h, id, db.rows[id])
    ensures ProcOk(h, Advance(crypto, db, p, choice).1)
  {
    if p.Reading? { ReadKeepsMark(db, h, p); }
  }

  lemma ReadKeepsMark(db: Db, h: History, p: Proc)
    requires p.Reading? && ProcOk(h, p) && forall id :: id in db.rows ==> StillBorn(h, id, db.rows[id])
    ensures ProcOk(h, ReadParent(db, p.w, p.mark, p.live, p.next))
  {
    if p.next >= |p.w.derivedFrom| {
      MarkedDominates(p.w.own, p.mark);
    } else if p.w.derivedFrom[p.next] in db.rows {
      assert StillBorn(h, p.w.derivedFrom[p.next], db.rows[p.w.derivedFrom[p.next]]);
      RaiseOnlyUp(p.mark, db.rows[p.w.derivedFrom[p.next]].policy);
    }
  }

  /** A birth dominates the policies of the parents it was labelled from. */
  lemma BirthInherits(crypto: Crypto, sys: System, e: Event, p: Id)
    requires LabelInv(sys) && FreshIds(crypto, sys, e)
    requires TxnOf(crypto, sys, e).Insert? && InsertRefusal(sys.db, TxnOf(crypto, sys, e).memory).None?
    requires p in TxnOf(crypto, sys, e).memory.liveParents
    ensures Inherits(Next(crypto, sys, e).hist, TxnOf(crypto, sys, e).memory.id, p)
  {
    var w := sys.procs[e.pid];
    assert ProcOk(sys.hist, w);
    var i :| 0 <= i < |w.live| && w.live[i] == p;
    StepGrows(crypto, sys, e);
  }

  lemma StepKeepsLabels(crypto: Crypto, sys: System, e: Event)
    requires LabelInv(sys) && FreshIds(crypto, sys, e)
    ensures LabelInv(Next(crypto, sys, e))
  {
    var x, next := TxnOf(crypto, sys, e), Next(crypto, sys, e);
    StepGrows(crypto, sys, e);
    forall id | id in next.db.rows ensures StillBorn(next.hist, id, next.db.rows[id]) {
      CommitKeepsPolicies(sys.db, x, id);
      if id in sys.db.rows { assert StillBorn(sys.hist, id, sys.db.rows[id]); }
    }
    forall id, p | id in next.hist.parents && p in next.hist.parents[id] ensures Inherits(next.hist, id, p) {
      if id in sys.hist.parents { assert Inherits(sys.hist, id, p); } else { BirthInherits(crypto, sys, e, p); }
    }
    StepKeepsProcs(crypto, sys, e);
  }

  lemma StepKeepsProcs(crypto: Crypto, sys: System, e: Event)
    requires LabelInv(sys) && FreshIds(crypto, sys, e)
    ensures forall pid :: pid in Next(crypto, sys, e).procs ==> ProcOk(Next(crypto, sys, e).hist, Next(crypto, sys, e).procs[pid])
  {
    var next := Next(crypto, sys, e);
    StepGrows(crypto, sys, e);
    forall pid | pid in next.procs ensures ProcOk(next.hist, next.procs[pid]) {
      if pid in sys.procs && next.procs[pid] == sys.procs[pid] {
        ProcStaysOk(sys.hist, next.hist, sys.procs[pid]);
      } else if e.Step? {
        AdvanceKeepsProc(crypto, sys.db, sys.hist, sys.procs[pid], e.choice);
        ProcStaysOk(sys.hist, next.hist, next.procs[pid]);
      }
    }
  }

  lemma {:induction false} RunsKeepLabels(crypto: Crypto, events: seq<Event>)
    requires FreshIdRun(crypto, events)
    ensures LabelInv(Run(crypto, events))
  {
    if events != [] {
      RunsKeepLabels(crypto, events[..|events| - 1]);
      StepKeepsLabels(crypto, Run(crypto, events[..|events| - 1]), events[|events| - 1]);
    }
  }

  // -- Ancestors ---------------------------------------------------------------------------

  /** A chain of births, each next entry a parent that was live when the one before it was written. */
  ghost predicate Ancestry(h: History, line: seq<Id>) {
    && line != [] && line[0] in h.born
    && forall i :: 0 < i < |line| ==> WasParent(h, line[i], line[i - 1])
  }

  predicate WasParent(h: History, parent: Id, child: Id) {
    child in h.parents && parent in h.parents[child]
  }

  lemma {:induction false} AncestryDominates(sys: System, line: seq<Id>)
    requires LabelInv(sys) && Ancestry(sys.hist, line)
    ensures line[|line| - 1] in sys.hist.born
    ensures Dominates(sys.hist.born[line[0]].policy, sys.hist.born[line[|line| - 1]].policy)
  {
    if |line| > 1 {
      var before := line[..|line| - 1];
      AncestryDominates(sys, before);
      assert WasParent(sys.hist, line[|line| - 1], line[|line| - 2]);
      assert Inherits(sys.hist, line[|line| - 2], line[|line| - 1]);
    }
  }

  /** In every run, a principal who passes the enforcer for a stored memory also meets the
      classification and every role gate that each of its ancestors was written with,
      whether or not the ancestor is still stored. */
  lemma VisibleMeansClearedForAncestors(crypto: Crypto, events: seq<Event>, principal: Principal, line: seq<Id>)
    requires FreshIdRun(crypto, events)
    requires var sys := Run(crypto, events);
      && Ancestry(sys.hist, line) && line[0] in sys.db.rows
      && Visible(principal, Gated(sys.db.rows[line[0]].tenant, sys.db.rows[line[0]].createdBy, sys.db.rows[line[0]].policy))
    ensures var h := Run(crypto, events).hist;
      var ancestor := line[|line| - 1];
      ancestor in h.born && Cleared(principal, h.born[ancestor].policy)
  {
    RunsKeepLabels(crypto, events);
    var sys := Run(crypto, events);
    var row := sys.db.rows[line[0]];
    VisibleMeans(principal, Gated(row.tenant, row.createdBy, row.policy));
    assert StillBorn(sys.hist, line[0], row);
    AncestryDominates(sys, line);
    DominatesClears(principal, row.policy, sys.hist.born[line[|line| - 1]].policy);
  }
}
