/** Labels are exactly what was asked for joined with the parents' labels: over whole runs a
    principal sees a derived memory if and only if the writer's own policy lets it and it meets
    the classification and every role gate of each live parent. */
module LeastLabels {
  import opened Common
  import opened Policy
  import opened Custody
  import opened Database
  import opened Processes
  import Inheritance
  import opened Written

  /** The principal meets the writer's own gates and those of each parent read. */
  ghost predicate Meets(h: History, principal: Principal, own: Policy, live: seq<Id>) {
    Cleared(principal, own) && forall i :: 0 <= i < |live| ==> MeetsParent(h, principal, live[i])
  }

  predicate MeetsParent(h: History, principal: Principal, p: Id) {
    p in h.born && Cleared(principal, h.born[p].policy)
  }

  ghost predicate AnyPersonal(h: History, own: Policy, live: seq<Id>) {
    own.pii || exists i :: 0 <= i < |live| && PersonalParent(h, live[i])
  }

  predicate PersonalParent(h: History, p: Id) {
    p in h.born && h.born[p].policy.pii
  }

  ghost predicate MarkMeets(principal: Principal, mark: Mark) {
    && mark.classification.Rank() <= principal.clearance.Rank()
    && forall g :: g in mark.gates ==> principal.roles * g != {}
  }

  /** What a writer's locals know of the labels, seen by one principal. */
  ghost predicate ProcOk(h: History, principal: Principal, p: Proc) {
    match p
    case Reading(w, mark, live, _) =>
      && CleanMark(mark) && (forall i :: 0 <= i < |live| ==> live[i] in h.born) && (w.derivedFrom == [] ==> live == [])
      && (MarkMeets(principal, mark) <==> Meets(h, principal, w.own, live)) && (mark.pii <==> AnyPersonal(h, w.own, live))
    case Keying(w, policy, live, _) => Labelled(h, principal, w.own, policy, live)
    case Ready(w, policy, live, _) => Labelled(h, principal, w.own, policy, live)
    case Editing(x) => IsEdit(x)
    case _ => true
  }

  ghost predicate Labelled(h: History, principal: Principal, own: Policy, policy: Policy, live: seq<Id>) {
    && (forall i :: 0 <= i < |live| ==> live[i] in h.born)
    && (Cleared(principal, policy) <==> Meets(h, principal, own, live)) && (policy.pii <==> AnyPersonal(h, own, live))
  }

  /** A birth, seen by one principal. */
  ghost predicate BirthOk(h: History, principal: Principal, id: Id, own: Policy) {
    && id in h.born && id in h.parents && h.parents[id] <= h.born.Keys
    && (Cleared(principal, h.born[id].policy) <==>
          Cleared(principal, own) && forall p :: p in h.parents[id] ==> MeetsParent(h, principal, p))
    && (h.born[id].policy.pii <==> own.pii || exists p :: p in h.parents[id] && PersonalParent(h, p))
  }

  ghost predicate LabelsExact(sys: System, story: Story, principal: Principal) {
    && sys.hist.born.Keys == story.asked.Keys
    && (forall id :: id in story.asked ==> BirthOk(sys.hist, principal, id, story.asked[id].own))
    && (forall pid :: pid in sys.procs ==> ProcOk(sys.hist, principal, sys.procs[pid]))
  }

  // -- Reading parents -------------------------------------------------------------------------

  lemma RaiseMeets(principal: Principal, mark: Mark, parent: Policy)
    requires CleanMark(mark)
    ensures MarkMeets(principal, Raise(mark, parent)) <==> MarkMeets(principal, mark) && Cleared(principal, parent)
  {
    assert forall g :: g in Raise(mark, parent).gates <==> g in mark.gates || g in Gates(parent);
  }

  lemma StartMeets(h: History, principal: Principal, own: Policy)
    ensures CleanMark(StartMark(own)) && (MarkMeets(principal, StartMark(own)) <==> Meets(h, principal, own, []))
    ensures StartMark(own).pii <==> AnyPersonal(h, own, [])
  {
  }

  lemma MarkedMeets(principal: Principal, own: Policy, mark: Mark)
    requires CleanMark(mark)
    ensures Cleared(principal, Marked(own, mark)) <==> MarkMeets(principal, mark)
  {
    assert Gates(Marked(own, mark)) == mark.gates;
  }

  lemma MeetsMore(h: History, principal: Principal, own: Policy, live: seq<Id>, p: Id)
    ensures Meets(h, principal, own, live + [p]) <==> Meets(h, principal, own, live) && MeetsParent(h, principal, p)
    ensures AnyPersonal(h, own, live + [p]) <==> AnyPersonal(h, own, live) || PersonalParent(h, p)
  {
    var more := live + [p];
    assert more[|live|] == p;
    assert forall i :: 0 <= i < |live| ==> more[i] == live[i];
    if Meets(h, principal, own, more) {
      forall i | 0 <= i < |live| ensures MeetsParent(h, principal, live[i]) { assert MeetsParent(h, principal, more[i]); }
      assert MeetsParent(h, principal, more[|live|]);
    }
    if AnyPersonal(h, own, live) && !own.pii {
      var i :| 0 <= i < |live| && PersonalParent(h, live[i]);
      assert PersonalParent(h, more[i]);
    }
    if PersonalParent(h, p) { assert PersonalParent(h, more[|live|]); }
  }

  lemma ReadKeepsLabels(db: Db, h: History, principal: Principal, p: Proc)
    requires p.Reading? && ProcOk(h, principal, p)
    requires forall id :: id in db.rows ==> Inheritance.StillBorn(h, id, db.rows[id])
    ensures ProcOk(h, principal, ReadParent(db, p.w, p.mark, p.live, p.next))
  {
    if p.next >= |p.w.derivedFrom| {
      MarkedMeets(principal, p.w.own, p.mark);
    } else if p.w.derivedFrom[p.next] in db.rows {
      var id := p.w.derivedFrom[p.next];
      assert Inheritance.StillBorn(h, id, db.rows[id]);
      RaiseMeets(principal, p.mark, db.rows[id].policy);
      MeetsMore(h, principal, p.w.own, p.live, id);
    }
  }

  lemma AdvanceKeepsLabels(crypto: Crypto, db: Db, h: History, principal: Principal, p: Proc, choice: string)
    requires ProcOk(h, principal, p)
    requires forall id :: id in db.rows ==> Inheritance.StillBorn(h, id, db.rows[id])
    ensures ProcOk(h, principal, Advance(crypto, db, p, choice).1)
  {
    if p.Reading? { ReadKeepsLabels(db, h, principal, p); }
  }

  // -- Growing histories -----------------------------------------------------------------------

  lemma LabelledStays(a: History, b: History, principal: Principal, own: Policy, live: seq<Id>)
    requires Inheritance.Grows(a, b) && forall i :: 0 <= i < |live| ==> live[i] in a.born
    ensures Meets(b, principal, own, live) <==> Meets(a, principal, own, live)
    ensures AnyPersonal(b, own, live) <==> AnyPersonal(a, own, live)
  {
    forall i | 0 <= i < |live|
      ensures MeetsParent(a, principal, live[i]) <==> MeetsParent(b, principal, live[i])
      ensures PersonalParent(a, live[i]) <==> PersonalParent(b, live[i])
    {
    }
  }

  lemma ProcStaysOk(a: History, b: History, principal: Principal, p: Proc)
    requires Inheritance.Grows(a, b) && ProcOk(a, principal, p)
    ensures ProcOk(b, principal, p)
  {
    match p
    case Reading(w, _, live, _) => LabelledStays(a, b, principal, w.own, live);
    case Keying(w, _, live, _) => LabelledStays(a, b, principal, w.own, live);
    case Ready(w, _, live, _) => LabelledStays(a, b, principal, w.own, live);
    case _ =>
  }

  lemma BirthStaysOk(a: History, b: History, principal: Principal, id: Id, own: Policy)
    requires Inheritance.Grows(a, b) && BirthOk(a, principal, id, own)
    ensures BirthOk(b, principal, id, own)
  {
    forall p | p in a.parents[id]
      ensures MeetsParent(a, principal, p) <==> MeetsParent(b, principal, p)
      ensures PersonalParent(a, p) <==> PersonalParent(b, p)
    {
    }
  }

  /** A birth is labelled as its writer's locals say. */
  lemma NewBirthOk(h: History, principal: Principal, id: Id, own: Policy, live: seq<Id>)
    requires id in h.born && id in h.parents && h.parents[id] == Elements(live)
    requires Labelled(h, principal, own, h.born[id].policy, live)
    ensures BirthOk(h, principal, id, own)
  {
    forall p | p in h.parents[id] ensures p in h.born {
      var i :| 0 <= i < |live| && live[i] == p;
    }
    if forall p :: p in h.parents[id] ==> MeetsParent(h, principal, p) {
      forall i | 0 <= i < |live| ensures MeetsParent(h, principal, live[i]) { assert live[i] in Elements(live); }
    } else {
      var p :| p in h.parents[id] && !MeetsParent(h, principal, p);
      var i :| 0 <= i < |live| && live[i] == p;
    }
    if p :| p in h.parents[id] && PersonalParent(h, p) {
      var i :| 0 <= i < |live| && live[i] == p;
      assert PersonalParent(h, live[i]);
    } else {
      forall i | 0 <= i < |live| ensures !PersonalParent(h, live[i]) { assert live[i] in Elements(live); }
    }
  }

  // -- Whole runs --------------------------------------------------------------------------------

  lemma BirthIsLabelled(crypto: Crypto, sys: System, story: Story, principal: Principal, e: Event)
    requires LabelsExact(sys, story, principal) && Inheritance.LabelInv(sys) && FreshIds(crypto, sys, e)
    requires CommittedWrite(crypto, sys, e).Some? && InsertRefusal(sys.db, TxnOf(crypto, sys, e).memory).None?
    requires TxnOf(crypto, sys, e).Insert?
    ensures var w := CommittedWrite(crypto, sys, e).value; BirthOk(Next(crypto, sys, e).hist, principal, w.id, w.own)
  {
    Inheritance.StepGrows(crypto, sys, e);
    var p, next := sys.procs[e.pid], Next(crypto, sys, e).hist;
    ProcStaysOk(sys.hist, next, principal, p);
    NewBirthOk(next, principal, p.w.id, p.w.own, p.live);
  }

  lemma StepKeepsBirths(crypto: Crypto, sys: System, story: Story, principal: Principal, e: Event)
    requires LabelsExact(sys, story, principal) && Inheritance.LabelInv(sys) && FreshIds(crypto, sys, e)
    requires forall pid :: pid in sys.procs ==> Written.ProcOk(sys.procs[pid])
    ensures var next, told := Next(crypto, sys, e), Continued(crypto, sys, story, e);
      && next.hist.born.Keys == told.asked.Keys
      && forall id :: id in told.asked ==> BirthOk(next.hist, principal, id, told.asked[id].own)
  {
    Inheritance.StepGrows(crypto, sys, e);
    InsertsAreWrites(crypto, sys, e);
    AskedGrows(crypto, sys, story, e);
    var next, told := Next(crypto, sys, e), Continued(crypto, sys, story, e);
    forall id | id in told.asked ensures BirthOk(next.hist, principal, id, told.asked[id].own) {
      if CommittedWrite(crypto, sys, e).Some? && id == CommittedWrite(crypto, sys, e).value.id {
        BirthIsLabelled(crypto, sys, story, principal, e);
      } else {
        BirthStaysOk(sys.hist, next.hist, principal, id, story.asked[id].own);
      }
    }
  }

  lemma AskedGrows(crypto: Crypto, sys: System, story: Story, e: Event)
    ensures var w := CommittedWrite(crypto, sys, e);
      Continued(crypto, sys, story, e).asked == if w.Some? then story.asked[w.value.id := w.value] else story.asked
  {
  }

  lemma StepKeepsExact(crypto: Crypto, sys: System, story: Story, principal: Principal, e: Event)
    requires LabelsExact(sys, story, principal) && Inheritance.LabelInv(sys) && FreshIds(crypto, sys, e)
    requires forall pid :: pid in sys.procs ==> Written.ProcOk(sys.procs[pid])
    ensures LabelsExact(Next(crypto, sys, e), Continued(crypto, sys, story, e), principal)
  {
    StepKeepsBirths(crypto, sys, story, principal, e);
    StepKeepsProcs(crypto, sys, principal, e);
  }

  lemma StepKeepsProcs(crypto: Crypto, sys: System, principal: Principal, e: Event)
    requires Inheritance.LabelInv(sys) && FreshIds(crypto, sys, e)
    requires forall pid :: pid in sys.procs ==> ProcOk(sys.hist, principal, sys.procs[pid])
    ensures var next := Next(crypto, sys, e); forall pid :: pid in next.procs ==> ProcOk(next.hist, principal, next.procs[pid])
  {
    Inheritance.StepGrows(crypto, sys, e);
    var next := Next(crypto, sys, e);
    forall pid | pid in next.procs ensures ProcOk(next.hist, principal, next.procs[pid]) {
      if e.Step? && pid == e.pid && pid in sys.procs {
        AdvanceKeepsLabels(crypto, sys.db, sys.hist, principal, sys.procs[pid], e.choice);
        ProcStaysOk(sys.hist, next.hist, principal, next.procs[pid]);
      } else if pid in sys.procs && next.procs[pid] == sys.procs[pid] {
        ProcStaysOk(sys.hist, next.hist, principal, sys.procs[pid]);
      } else if e.Begin? && e.verb.Reading? {
        StartMeets(next.hist, principal, e.verb.w.own);
      }
    }
  }

  lemma {:induction false} RunsLabelExactly(crypto: Crypto, events: seq<Event>, principal: Principal)
    requires FreshIdRun(crypto, events)
    ensures LabelsExact(Run(crypto, events), StoryOf(crypto, events), principal)
  {
    if events != [] {
      var before := events[..|events| - 1];
      RunsLabelExactly(crypto, before, principal);
      Inheritance.RunsKeepLabels(crypto, before);
      RunsKeepTheStory(crypto, before);
      StepKeepsExact(crypto, Run(crypto, before), StoryOf(crypto, before), principal, events[|events| - 1]);
    }
  }

  /** In every run, a principal may see a stored memory exactly when the policy its writer asked
      for lets it - tenant, classification, gates, every attribute, private ownership - and it
      meets the classification and every role gate of each live parent; and the memory counts as
      personal exactly when its writer or a live parent says so. Unless the row was edited, it is
      owned by whoever wrote it. */
  lemma SeenIffAskedAndParents(crypto: Crypto, events: seq<Event>, principal: Principal, id: Id)
    requires FreshIdRun(crypto, events) && id in Run(crypto, events).db.rows
    ensures id in StoryOf(crypto, events).asked && id in Run(crypto, events).hist.parents
    ensures var sys, w := Run(crypto, events), StoryOf(crypto, events).asked[id];
      var row, parents := sys.db.rows[id], sys.hist.parents[id];
      && (Visible(principal, Gated(row.tenant, row.createdBy, row.policy)) <==>
            && Visible(principal, Gated(w.tenant, row.createdBy, w.own))
            && forall p :: p in parents ==> MeetsParent(sys.hist, principal, p))
      && (row.policy.pii <==> w.own.pii || exists p :: p in parents && PersonalParent(sys.hist, p))
      && (id in StoryOf(crypto, events).edited || row.createdBy == w.createdBy)
  {
    RunsLabelExactly(crypto, events, principal);
    Inheritance.RunsKeepLabels(crypto, events);
    RunsKeepTheStory(crypto, events);
    var sys, w := Run(crypto, events), StoryOf(crypto, events).asked[id];
    var row := sys.db.rows[id];
    assert Inheritance.StillBorn(sys.hist, id, row);
    VisibleMeans(principal, Gated(row.tenant, row.createdBy, row.policy));
    VisibleMeans(principal, Gated(w.tenant, row.createdBy, w.own));
    assert BirthOk(sys.hist, principal, id, w.own);
  }
}
