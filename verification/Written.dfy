/** What writers asked for, kept beside a run, and what the stored rows and edges make of it. */
module Written {
  import opened Common
  import opened Policy
  import opened Custody
  import opened Database
  import opened Processes
  import Erasure

  /** The story of a run: what each stored memory was asked to be; the pairs of a child and a
      parent that was deleted alone since; the edges added by hand; the rows edited since they
      were written; and the committed writes in order. */
  datatype Story = Story(
    asked: map<Id, WriteArgs>, cut: set<(Id, Id)>, added: set<(Id, Id)>, edited: set<Id>, written: seq<Id>)

  const NO_STORY := Story(map[], {}, {}, {}, [])

  /** The write this step commits: a writer's memory was not stored before and is afterwards. */
  ghost function CommittedWrite(crypto: Crypto, sys: System, e: Event): Option<WriteArgs> {
    if e.Step? && e.pid in sys.procs && sys.procs[e.pid].Ready?
       && sys.procs[e.pid].w.id !in sys.db.rows && sys.procs[e.pid].w.id in Next(crypto, sys, e).db.rows
    then Some(sys.procs[e.pid].w) else None
  }

  ghost function Continued(crypto: Crypto, sys: System, story: Story, e: Event): Story {
    var w := CommittedWrite(crypto, sys, e);
    if w.Some? then
      var id := w.value.id;
      Story(story.asked[id := w.value], (set c | c in story.cut && c.0 != id), story.added, story.edited - {id}, story.written + [id])
    else
      match TxnOf(crypto, sys, e)
      case Delete(p) => story.(cut := story.cut + (set c | c in sys.db.rows :: (c, p)))
      case AddEdge(c, p) => story.(added := story.added + {(c, p)})
      case Touch(id, _, _, _) => story.(edited := story.edited + {id})
      case _ => story
  }

  ghost function StoryOf(crypto: Crypto, events: seq<Event>): Story {
    if events == [] then NO_STORY
    else
      var before := events[..|events| - 1];
      Continued(crypto, Run(crypto, before), StoryOf(crypto, before), events[|events| - 1])
  }

  // -- Rows and edges are as asked ----------------------------------------------------------------

  function AliasesOf(w: WriteArgs): seq<Subject> {
    if w.aliases == [] then [w.subject] else w.aliases
  }

  /** A row holds what its writer asked for; the review state may have become superseded, and an
      edit may have changed review state, epistemic status and creator. */
  predicate AsAsked(row: Row, w: WriteArgs, edited: bool) {
    && row.tenant == w.tenant && row.subject == w.subject && row.aliases == Some(AliasesOf(w))
    && row.contentHash == w.contentHash && row.written == w.content
    && PolicyAsAsked(row.policy, w)
    && (!edited ==>
          row.createdBy == w.createdBy && row.epistemic == w.epistemic && (row.review == w.review || row.review == SUPERSEDED))
  }

  /** Labels may be raised by parents; visibility and attributes are as asked, and without parents
      so is everything. */
  predicate PolicyAsAsked(policy: Policy, w: WriteArgs) {
    policy.visibility == w.own.visibility && policy.attrs == w.own.attrs && (w.derivedFrom == [] ==> policy == w.own)
  }

  /** Every parent asked for has its edge, unless it was deleted alone since. */
  ghost predicate EdgesKept(db: Db, story: Story, id: Id, w: WriteArgs) {
    forall p :: p in w.derivedFrom ==> (id, p) in db.edges || (id, p) in story.cut
  }

  ghost predicate RowsAreAsAsked(db: Db, story: Story) {
    forall id :: id in db.rows ==>
      id in story.asked && AsAsked(db.rows[id], story.asked[id], id in story.edited) && EdgesKept(db, story, id, story.asked[id])
  }

  /** No edge but those asked for by the writer of a stored row, and those added by hand. */
  ghost predicate EdgesAreAsAsked(db: Db, story: Story) {
    forall e :: e in db.edges ==>
      e in story.added || (e.0 in db.rows && e.0 in story.asked && e.1 in story.asked[e.0].derivedFrom)
  }

  function Remembers(written: seq<Id>): seq<(string, Id)> {
    seq(|written|, i requires 0 <= i < |written| => ("remember", written[i]))
  }

  predicate ProcOk(p: Proc) {
    match p
    case Keying(w, policy, _, _) => PolicyAsAsked(policy, w)
    case Ready(w, policy, _, _) => PolicyAsAsked(policy, w)
    case Editing(x) => IsEdit(x)
    case _ => true
  }

  ghost predicate StoryInv(sys: System, story: Story) {
    && RowsAreAsAsked(sys.db, story) && EdgesAreAsAsked(sys.db, story) && sys.db.audit == Remembers(story.written)
    && forall pid :: pid in sys.procs ==> ProcOk(sys.procs[pid])
  }

  lemma AdvanceKeepsProc(crypto: Crypto, db: Db, p: Proc, choice: string)
    requires ProcOk(p)
    ensures ProcOk(Advance(crypto, db, p, choice).1)
  {
  }

  /** Which transactions insert, and what they insert. */
  lemma InsertsAreWrites(crypto: Crypto, sys: System, e: Event)
    requires forall pid :: pid in sys.procs ==> ProcOk(sys.procs[pid])
    ensures var x, w := TxnOf(crypto, sys, e), CommittedWrite(crypto, sys, e);
      && (w.Some? <==> x.Insert? && InsertRefusal(sys.db, x.memory).None?)
      && (w.Some? ==> (
            && sys.procs[e.pid].Ready? && w.value == sys.procs[e.pid].w && x.memory.id == w.value.id
            && x.memory.derivedFrom == w.value.derivedFrom && x.memory.superseded == w.value.superseded
            && AsAsked(x.memory.row, w.value, false) && x.memory.row.review == w.value.review))
  {
    if e.Step? && e.pid in sys.procs { assert ProcOk(sys.procs[e.pid]); }
    var x := TxnOf(crypto, sys, e);
    if x.Insert? && InsertRefusal(sys.db, x.memory).None? {
      Erasure.RetiringKeepsNames(sys.db.rows[x.memory.id := x.memory.row], x.memory.row.tenant, x.memory.superseded);
    }
  }

  // -- One step --------------------------------------------------------------------------------------

  lemma RetiringKeepsAsked(rows: map<Id, Row>, t: Tenant, targets: seq<Target>, story: Story)
    requires Supersede(rows, t, targets).Some?
    requires forall id :: id in rows ==> id in story.asked && AsAsked(rows[id], story.asked[id], id in story.edited)
    ensures var after := Supersede(rows, t, targets).value;
      after.Keys == rows.Keys && forall id :: id in after ==> AsAsked(after[id], story.asked[id], id in story.edited)
  {
    RetiringTouchesReview(rows, t, targets);
    var after := Supersede(rows, t, targets).value;
    forall id | id in after ensures AsAsked(after[id], story.asked[id], id in story.edited) {
      assert after[id].(review := "") == rows[id].(review := "");
    }
  }

  /** Retiring changes the review state only, to superseded, and of the targets only. */
  lemma {:induction false} RetiringTouchesReview(rows: map<Id, Row>, t: Tenant, targets: seq<Target>)
    requires Supersede(rows, t, targets).Some?
    ensures var after := Supersede(rows, t, targets).value;
      && after.Keys == rows.Keys
      && (forall id :: id in rows ==> after[id].(review := "") == rows[id].(review := ""))
      && (forall id :: id in rows ==> after[id].review == rows[id].review || after[id].review == SUPERSEDED)
  {
    if targets != [] { RetiringTouchesReview(rows, t, targets[..|targets| - 1]); }
  }

  lemma WriteKeepsRows(sys: System, story: Story, m: NewMemory, w: WriteArgs, next: Story)
    requires RowsAreAsAsked(sys.db, story) && InsertRefusal(sys.db, m).None?
    requires m.id == w.id && AsAsked(m.row, w, false) && m.derivedFrom == w.derivedFrom
    requires next.asked == story.asked[w.id := w] && next.edited == story.edited - {w.id}
    requires next.cut == set c | c in story.cut && c.0 != w.id
    ensures RowsAreAsAsked(Inserted(sys.db, m), next)
  {
    RetiringKeepsAsked(sys.db.rows[m.id := m.row], m.row.tenant, m.superseded, next);
    var db := Inserted(sys.db, m);
    forall id | id in db.rows ensures EdgesKept(db, next, id, next.asked[id]) {
      if id != w.id { assert EdgesKept(sys.db, story, id, story.asked[id]); }
    }
  }

  lemma WriteKeepsEdges(sys: System, story: Story, m: NewMemory, w: WriteArgs, next: Story)
    requires EdgesAreAsAsked(sys.db, story) && InsertRefusal(sys.db, m).None?
    requires m.id == w.id && m.derivedFrom == w.derivedFrom
    requires next.asked == story.asked[w.id := w] && next.added == story.added
    ensures EdgesAreAsAsked(Inserted(sys.db, m), next)
  {
    Erasure.RetiringKeepsNames(sys.db.rows[m.id := m.row], m.row.tenant, m.superseded);
  }

  lemma WriteIsTold(crypto: Crypto, sys: System, story: Story, e: Event)
    requires StoryInv(sys, story) && CommittedWrite(crypto, sys, e).Some?
    ensures var next := Continued(crypto, sys, story, e);
      var db := Next(crypto, sys, e).db;
      RowsAreAsAsked(db, next) && EdgesAreAsAsked(db, next) && db.audit == Remembers(next.written)
  {
    InsertsAreWrites(crypto, sys, e);
    var m, w := TxnOf(crypto, sys, e).memory, CommittedWrite(crypto, sys, e).value;
    var next := Continued(crypto, sys, story, e);
    WriteKeepsRows(sys, story, m, w, next);
    WriteKeepsEdges(sys, story, m, w, next);
  }

  lemma RemovalKeepsStory(db: Db, story: Story, gone: set<Id>, next: Story, lineage: map<string, Lineage>, vecs: set<Id>)
    requires RowsAreAsAsked(db, story) && EdgesAreAsAsked(db, story)
    requires next.asked == story.asked && next.edited == story.edited && next.added == story.added && story.cut <= next.cut
    requires forall c, p :: c in db.rows && c !in gone && p in gone && (c, p) in db.edges ==> (c, p) in next.cut
    ensures var after := WithoutRows(db, gone).(lineage := lineage, vecs := vecs);
      RowsAreAsAsked(after, next) && EdgesAreAsAsked(after, next)
  {
    var after := WithoutRows(db, gone).(lineage := lineage, vecs := vecs);
    forall id | id in after.rows ensures EdgesKept(after, next, id, next.asked[id]) {
      assert EdgesKept(db, story, id, story.asked[id]);
      forall p | p in next.asked[id].derivedFrom ensures (id, p) in after.edges || (id, p) in next.cut {
        assert (id, p) in db.edges || (id, p) in story.cut;
      }
    }
  }

  /** Every other transaction. */
  lemma OtherStepIsTold(crypto: Crypto, sys: System, story: Story, e: Event)
    requires StoryInv(sys, story) && CommittedWrite(crypto, sys, e).None?
    ensures var next := Continued(crypto, sys, story, e);
      var db := Next(crypto, sys, e).db;
      RowsAreAsAsked(db, next) && EdgesAreAsAsked(db, next) && db.audit == Remembers(next.written)
  {
    InsertsAreWrites(crypto, sys, e);
    var x, next := TxnOf(crypto, sys, e), Continued(crypto, sys, story, e);
    assert Next(crypto, sys, e).db == Commit(sys.db, x);
    match x
    case Delete(p) => RemovalKeepsStory(sys.db, story, {p}, next, WithoutRows(sys.db, {p}).lineage, sys.db.vecs);
    case Purge(t, s, seed, can) =>
      if !PurgeRefused(sys.db, t, s, seed, can) { PurgeIsTold(sys.db, story, t, s, seed); }
    case SupersedeOnly(t, targets) =>
      if Supersede(sys.db.rows, t, targets).Some? { SupersedeIsTold(sys.db, story, t, targets); }
    case _ => SmallStepIsTold(sys.db, story, x, next);
  }

  lemma PurgeIsTold(db: Db, story: Story, t: Tenant, s: Subject, seed: set<Id>)
    requires RowsAreAsAsked(db, story) && EdgesAreAsAsked(db, story) && SubjectIds(db, t, s).Some?
    ensures RowsAreAsAsked(Purged(db, t, s, seed), story) && EdgesAreAsAsked(Purged(db, t, s, seed), story)
  {
    PurgeIsExact(db, t, s, seed);
    var after := Purged(db, t, s, seed);
    RemovalKeepsStory(db, story, PurgeSet(db, t, s, seed), story, after.lineage, after.vecs);
  }

  lemma SupersedeIsTold(db: Db, story: Story, t: Tenant, targets: seq<Target>)
    requires RowsAreAsAsked(db, story) && EdgesAreAsAsked(db, story) && Supersede(db.rows, t, targets).Some?
    ensures var after := db.(rows := Supersede(db.rows, t, targets).value);
      RowsAreAsAsked(after, story) && EdgesAreAsAsked(after, story)
  {
    RetiringKeepsAsked(db.rows, t, targets, story);
    var after := db.(rows := Supersede(db.rows, t, targets).value);
    forall id | id in after.rows ensures EdgesKept(after, story, id, story.asked[id]) {
      assert EdgesKept(db, story, id, story.asked[id]);
    }
  }

  /** Transactions that neither add nor remove a row. */
  lemma SmallStepIsTold(db: Db, story: Story, x: Txn, next: Story)
    requires RowsAreAsAsked(db, story) && EdgesAreAsAsked(db, story)
    requires !x.Delete? && !x.Purge? && !x.SupersedeOnly? && (x.Insert? ==> InsertRefusal(db, x.memory).Some?)
    requires next.asked == story.asked && next.cut == story.cut
    requires next.added == story.added + if x.AddEdge? then {(x.child, x.parent)} else {}
    requires next.edited == story.edited + if x.Touch? then {x.id} else {}
    ensures RowsAreAsAsked(Commit(db, x), next) && EdgesAreAsAsked(Commit(db, x), next)
  {
    SmallStepChanges(db, x);
    var after := Commit(db, x);
    forall id | id in after.rows
      ensures AsAsked(after.rows[id], next.asked[id], id in next.edited) && EdgesKept(after, next, id, next.asked[id])
    {
      assert AsAsked(db.rows[id], story.asked[id], id in story.edited) && EdgesKept(db, story, id, story.asked[id]);
    }
  }

  lemma SmallStepChanges(db: Db, x: Txn)
    requires !x.Delete? && !x.Purge? && !x.SupersedeOnly? && (x.Insert? ==> InsertRefusal(db, x.memory).Some?)
    ensures var after := Commit(db, x);
      && after.rows.Keys == db.rows.Keys
      && after.edges == db.edges + (if x.AddEdge? then {(x.child, x.parent)} else {})
      && (forall id :: id in db.rows && !(x.Touch? && x.id == id) ==> after.rows[id] == db.rows[id])
      && (x.Touch? && x.id in db.rows ==>
            after.rows[x.id].(review := "", epistemic := "", createdBy := "")
            == db.rows[x.id].(review := "", epistemic := "", createdBy := ""))
  {
  }

  lemma StepIsTold(crypto: Crypto, sys: System, story: Story, e: Event)
    requires StoryInv(sys, story)
    ensures StoryInv(Next(crypto, sys, e), Continued(crypto, sys, story, e))
  {
    if CommittedWrite(crypto, sys, e).Some? { WriteIsTold(crypto, sys, story, e); } else { OtherStepIsTold(crypto, sys, story, e); }
    var next := Next(crypto, sys, e);
    forall pid | pid in next.procs ensures ProcOk(next.procs[pid]) {
      if pid in sys.procs && e.Step? && e.pid == pid { AdvanceKeepsProc(crypto, sys.db, sys.procs[pid], e.choice); }
    }
  }

  /** In every run: each stored row is what its writer asked for, each edge was asked for or added
      by hand, each parent asked for has its edge unless it was deleted alone since, and each
      committed write is audited once, in order. */
  lemma {:induction false} RunsKeepTheStory(crypto: Crypto, events: seq<Event>)
    ensures StoryInv(Run(crypto, events), StoryOf(crypto, events))
  {
    if events != [] {
      RunsKeepTheStory(crypto, events[..|events| - 1]);
      StepIsTold(crypto, Run(crypto, events[..|events| - 1]), StoryOf(crypto, events[..|events| - 1]), events[|events| - 1]);
    }
  }

  // -- Erasure takes what was derived ---------------------------------------------------------------

  /** A line of stored memories, each written as derived from the next, none of whose links was
      cut by deleting the parent alone; its last entry need not be stored. */
  ghost predicate DerivedLine(db: Db, story: Story, line: seq<Id>) {
    && line != []
    && forall i :: 0 <= i < |line| - 1 ==>
         && line[i] in db.rows && line[i] in story.asked && line[i + 1] in story.asked[line[i]].derivedFrom
         && (line[i], line[i + 1]) !in story.cut
  }

  lemma {:induction false} LineIsInside(db: Db, story: Story, line: seq<Id>, gone: set<Id>)
    requires RowsAreAsAsked(db, story) && DerivedLine(db, story, line) && ClosedUnderChildren(db.edges, gone)
    requires line[|line| - 1] in gone
    ensures line[0] in gone
  {
    if |line| > 1 {
      LineIsInside(db, story, line[1..], gone);
      assert EdgesKept(db, story, line[0], story.asked[line[0]]);
      assert (line[0], line[1]) in db.edges;
    }
  }

  lemma PurgedTakesTheDerived(db: Db, story: Story, t: Tenant, s: Subject, seed: set<Id>, line: seq<Id>)
    requires RowsAreAsAsked(db, story) && DerivedLine(db, story, line) && line[|line| - 1] in db.rows
    requires line[|line| - 1] !in Purged(db, t, s, seed).rows
    ensures line[0] !in Purged(db, t, s, seed).rows
  {
    PurgedSetIsClosed(db.edges, Selected(db, t, s, seed));
    LineIsInside(db, story, line, PurgeSet(db, t, s, seed));
  }

  /** The state after a process in state Purging takes its step. */
  lemma PurgeStepCommits(crypto: Crypto, events: seq<Event>, pid: nat, choice: string)
    requires pid in Run(crypto, events).procs && Run(crypto, events).procs[pid].Purging?
    ensures var sys := Run(crypto, events);
      var p := sys.procs[pid];
      Run(crypto, events + [Step(pid, choice)]).db ==
        if PurgeRefused(sys.db, p.t, p.s, p.seed, p.canErase) then sys.db else Purged(sys.db, p.t, p.s, p.seed)
  {
    var sys := Run(crypto, events);
    assert (events + [Step(pid, choice)])[..|events|] == events;
    PurgingAdvances(crypto, sys.db, sys.procs[pid], choice);
    assert Run(crypto, events + [Step(pid, choice)]).db == Commit(sys.db, TxnOf(crypto, sys, Step(pid, choice)));
  }

  lemma PurgingAdvances(crypto: Crypto, db: Db, p: Proc, choice: string)
    requires p.Purging?
    ensures Advance(crypto, db, p, choice).0 == Purge(p.t, p.s, p.seed, p.canErase)
  {
  }

  lemma PurgeStepTellsNothing(crypto: Crypto, events: seq<Event>, pid: nat, choice: string)
    requires pid in Run(crypto, events).procs && Run(crypto, events).procs[pid].Purging?
    ensures StoryOf(crypto, events + [Step(pid, choice)]) == StoryOf(crypto, events)
  {
    assert (events + [Step(pid, choice)])[..|events|] == events;
    assert TxnOf(crypto, Run(crypto, events), Step(pid, choice)).Purge?;
  }

  /** When a purge commits, nothing that was written as derived from a purged memory, directly or
      through a line of stored memories, is stored any more. */
  lemma PurgeTakesTheDerived(crypto: Crypto, events: seq<Event>, pid: nat, choice: string, line: seq<Id>)
    requires pid in Run(crypto, events).procs && Run(crypto, events).procs[pid].Purging?
    requires DerivedLine(Run(crypto, events).db, StoryOf(crypto, events), line)
    requires line[|line| - 1] in Run(crypto, events).db.rows
    ensures var after := Run(crypto, events + [Step(pid, choice)]).db;
      line[|line| - 1] !in after.rows ==> line[0] !in after.rows
  {
    RunsKeepTheStory(crypto, events);
    PurgeStepCommits(crypto, events, pid, choice);
    var sys := Run(crypto, events);
    var p := sys.procs[pid];
    if line[|line| - 1] !in Run(crypto, events + [Step(pid, choice)]).db.rows {
      PurgedTakesTheDerived(sys.db, StoryOf(crypto, events), p.t, p.s, p.seed, line);
    }
  }

  /** The writer asked for a memory about this subject, as its subject or as an alias. */
  predicate AskedAbout(w: WriteArgs, t: Tenant, s: Subject) {
    w.tenant == t && (w.subject == s || s in w.aliases)
  }

  /** Once a subject's purge has committed, in every later state no stored row is one that its
      writer asked to be about the subject. */
  lemma ErasedIsNeverAsked(crypto: Crypto, events: seq<Event>, n: nat, t: Tenant, s: Subject)
    requires n <= |events| && (t, s) in Run(crypto, events[..n]).hist.erased
    ensures var db, asked := Run(crypto, events).db, StoryOf(crypto, events).asked;
      forall id :: id in db.rows ==> id in asked && !AskedAbout(asked[id], t, s)
  {
    Erasure.ErasureIsFinal(crypto, events, n, t, s);
    RunsKeepTheStory(crypto, events);
    var db, story := Run(crypto, events).db, StoryOf(crypto, events);
    forall id | id in db.rows ensures !AskedAbout(story.asked[id], t, s) {
      assert AsAsked(db.rows[id], story.asked[id], id in story.edited);
      assert db.rows[id].tenant == t ==> !Names(db.rows[id], s);
    }
  }

  /** When a subject's purge commits, every memory written about the subject goes, and with it
      whatever was written as derived from it along a line of stored memories. */
  lemma ErasureTakesTheDerived(crypto: Crypto, events: seq<Event>, pid: nat, choice: string, line: seq<Id>)
    requires var sys, story := Run(crypto, events), StoryOf(crypto, events);
      && pid in sys.procs && sys.procs[pid].Purging?
      && var p := sys.procs[pid];
         && !PurgeRefused(sys.db, p.t, p.s, p.seed, p.canErase)
         && DerivedLine(sys.db, story, line) && line[|line| - 1] in sys.db.rows && line[|line| - 1] in story.asked
         && AskedAbout(story.asked[line[|line| - 1]], p.t, p.s)
    ensures line[0] !in Run(crypto, events + [Step(pid, choice)]).db.rows
  {
    var last, p := line[|line| - 1], Run(crypto, events).procs[pid];
    var all := events + [Step(pid, choice)];
    assert all[..|all|] == all;
    Erasure.PurgeStepErases(crypto, events, pid, choice);
    ErasedIsNeverAsked(crypto, all, |all|, p.t, p.s);
    PurgeStepTellsNothing(crypto, events, pid, choice);
    PurgeTakesTheDerived(crypto, events, pid, choice, line);
  }

  // -- Lineage ------------------------------------------------------------------------------------------

  /** An id that cannot be taken for the name of an embedding. */
  predicate Plain(id: Id) {
    !("emb:" <= id)
  }

  /** The stored memories are exactly those with a lineage entry, each under its own subject. */
  ghost predicate LineageIsExact(db: Db) {
    && (forall id :: id in db.rows ==> Plain(id) && Traced(db.lineage, id, db.rows[id]))
    && (forall a :: a in db.lineage && db.lineage[a].kind.MemoryArtifact? ==> a in db.rows)
  }

  predicate Traced(lineage: map<string, Lineage>, id: Id, row: Row) {
    id in lineage && lineage[id] == Lineage(MemoryArtifact, row.subject, row.tenant)
  }

  lemma PlainIsNoEmbedding(a: Id, b: Id)
    ensures Plain(a) ==> a != EmbeddingOf(b)
  {
    assert "emb:" <= EmbeddingOf(b);
  }

  lemma WriteIsTraced(db: Db, m: NewMemory)
    requires LineageIsExact(db) && InsertRefusal(db, m).None? && Plain(m.id)
    ensures LineageIsExact(Inserted(db, m))
  {
    Erasure.RetiringKeepsNames(db.rows[m.id := m.row], m.row.tenant, m.superseded);
    forall id | id in Inserted(db, m).rows ensures Plain(id) && Traced(Inserted(db, m).lineage, id, Inserted(db, m).rows[id]) {
      PlainIsNoEmbedding(id, m.id);
      assert id in db.rows ==> Traced(db.lineage, id, db.rows[id]);
    }
  }

  lemma RemovalIsTraced(db: Db, gone: set<Id>)
    requires LineageIsExact(db)
    ensures LineageIsExact(WithoutRows(db, gone))
  {
    var after := WithoutRows(db, gone);
    forall id | id in after.rows ensures Plain(id) && Traced(after.lineage, id, after.rows[id]) {
      assert Traced(db.lineage, id, db.rows[id]);
      forall g | g in gone ensures id != EmbeddingOf(g) { PlainIsNoEmbedding(id, g); }
    }
  }

  lemma PurgeIsTraced(db: Db, t: Tenant, s: Subject, seed: set<Id>)
    requires LineageIsExact(db) && SubjectIds(db, t, s).Some?
    ensures LineageIsExact(Purged(db, t, s, seed))
  {
    PurgeIsExact(db, t, s, seed);
    var gone, after := PurgeSet(db, t, s, seed), Purged(db, t, s, seed);
    RemovalIsTraced(db, gone);
    forall id | id in after.rows ensures Plain(id) && Traced(after.lineage, id, after.rows[id]) {
      assert Traced(WithoutRows(db, gone).lineage, id, db.rows[id]);
      assert !(db.rows[id].tenant == t && Names(db.rows[id], s));
    }
  }

  lemma SupersedeIsTraced(db: Db, t: Tenant, targets: seq<Target>)
    requires LineageIsExact(db) && Supersede(db.rows, t, targets).Some?
    ensures LineageIsExact(db.(rows := Supersede(db.rows, t, targets).value))
  {
    Erasure.RetiringKeepsNames(db.rows, t, targets);
    forall id | id in db.rows ensures Traced(db.lineage, id, Supersede(db.rows, t, targets).value[id]) {
      assert Traced(db.lineage, id, db.rows[id]);
    }
  }

  lemma CommitIsTraced(db: Db, x: Txn)
    requires LineageIsExact(db)
    requires x.Insert? && InsertRefusal(db, x.memory).None? ==> Plain(x.memory.id)
    ensures LineageIsExact(Commit(db, x))
  {
    match x
    case Insert(m) => if InsertRefusal(db, m).None? { WriteIsTraced(db, m); }
    case Delete(id) => RemovalIsTraced(db, {id});
    case Purge(t, s, seed, can) => if !PurgeRefused(db, t, s, seed, can) { PurgeIsTraced(db, t, s, seed); }
    case SupersedeOnly(t, targets) => if Supersede(db.rows, t, targets).Some? { SupersedeIsTraced(db, t, targets); }
    case Touch(id, _, _, _) => if id in db.rows { assert Traced(db.lineage, id, db.rows[id]); }
    case _ =>
  }

  /** In every run whose memory ids cannot be taken for embedding names, exactly the stored
      memories have a lineage entry, each under the subject it was written about. */
  lemma {:induction false} RunsTraceRows(crypto: Crypto, events: seq<Event>)
    requires forall id :: id in StoryOf(crypto, events).asked ==> Plain(id)
    ensures LineageIsExact(Run(crypto, events).db)
  {
    if events != [] {
      var before, e := events[..|events| - 1], events[|events| - 1];
      RunsKeepTheStory(crypto, before);
      InsertsAreWrites(crypto, Run(crypto, before), e);
      assert forall id :: id in StoryOf(crypto, before).asked ==> id in StoryOf(crypto, events).asked;
      RunsTraceRows(crypto, before);
      CommitIsTraced(Run(crypto, before).db, TxnOf(crypto, Run(crypto, before), e));
    }
  }

  /** A committed write leaves two lineage entries under its subject, for the memory and for its
      embedding. */
  lemma WriteLeavesLineage(crypto: Crypto, events: seq<Event>, pid: nat, choice: string)
    requires pid in Run(crypto, events).procs && Run(crypto, events).procs[pid].Ready?
    requires CommittedWrite(crypto, Run(crypto, events), Step(pid, choice)).Some?
    ensures var w := Run(crypto, events).procs[pid].w;
      var lineage := Run(crypto, events + [Step(pid, choice)]).db.lineage;
      && "emb:" + w.id in lineage && lineage["emb:" + w.id] == Lineage(EmbeddingArtifact, w.subject, w.tenant)
      && w.id in lineage && lineage[w.id] == Lineage(MemoryArtifact, w.subject, w.tenant)
  {
    RunsKeepTheStory(crypto, events);
    assert (events + [Step(pid, choice)])[..|events|] == events;
    InsertsAreWrites(crypto, Run(crypto, events), Step(pid, choice));
    assert |"emb:" + Run(crypto, events).procs[pid].w.id| != |Run(crypto, events).procs[pid].w.id|;
  }

  // -- Which parents a write is labelled from ----------------------------------------------------------

  /** How many events had happened when the process began what it is doing. */
  ghost function Began(crypto: Crypto, events: seq<Event>, pid: nat): nat {
    if events == [] then 0
    else
      var before, e := events[..|events| - 1], events[|events| - 1];
      if e.Begin? && e.pid == pid && Run(crypto, events).procs != Run(crypto, before).procs then |events|
      else Began(crypto, before, pid)
  }

  /** At some moment since then the memory was not stored. */
  ghost predicate MissingSince(crypto: Crypto, events: seq<Event>, from: nat, p: Id) {
    exists n :: from <= n <= |events| && MissingAt(crypto, events, n, p)
  }

  ghost predicate MissingAt(crypto: Crypto, events: seq<Event>, n: nat, p: Id)
    requires n <= |events|
  {
    p !in Run(crypto, events[..n]).db.rows
  }

  /** Of the first `n` parents asked for, those read are listed and the others were missing. */
  ghost predicate ReadUpTo(crypto: Crypto, events: seq<Event>, from: nat, w: WriteArgs, live: seq<Id>, n: nat) {
    && from <= |events| && n <= |w.derivedFrom|
    && (forall j :: 0 <= j < n ==> w.derivedFrom[j] in live || MissingSince(crypto, events, from, w.derivedFrom[j]))
    && (forall p :: p in live ==> p in w.derivedFrom)
  }

  ghost predicate ReadsOk(crypto: Crypto, events: seq<Event>, pid: nat, p: Proc) {
    var from := Began(crypto, events, pid);
    match p
    case Reading(w, _, live, next) => ReadUpTo(crypto, events, from, w, live, next)
    case Keying(w, _, live, _) => ReadUpTo(crypto, events, from, w, live, |w.derivedFrom|)
    case Ready(w, _, live, _) => ReadUpTo(crypto, events, from, w, live, |w.derivedFrom|)
    case Editing(x) => IsEdit(x)
    case _ => true
  }

  lemma MissingStays(crypto: Crypto, events: seq<Event>, from: nat, p: Id)
    requires events != [] && MissingSince(crypto, events[..|events| - 1], from, p)
    ensures MissingSince(crypto, events, from, p)
  {
    var before := events[..|events| - 1];
    var n :| from <= n <= |before| && MissingAt(crypto, before, n, p);
    assert before[..n] == events[..n];
    assert MissingAt(crypto, events, n, p);
  }

  lemma ReadStays(crypto: Crypto, events: seq<Event>, from: nat, w: WriteArgs, live: seq<Id>, n: nat)
    requires events != [] && ReadUpTo(crypto, events[..|events| - 1], from, w, live, n)
    ensures ReadUpTo(crypto, events, from, w, live, n)
  {
    forall j | 0 <= j < n && w.derivedFrom[j] !in live ensures MissingSince(crypto, events, from, w.derivedFrom[j]) {
      MissingStays(crypto, events, from, w.derivedFrom[j]);
    }
  }

  /** One more parent is read. */
  lemma ReadOneMore(crypto: Crypto, events: seq<Event>, from: nat, w: WriteArgs, live: seq<Id>, n: nat)
    requires events != [] && ReadUpTo(crypto, events[..|events| - 1], from, w, live, n) && n < |w.derivedFrom|
    ensures var p := w.derivedFrom[n];
      if p in Run(crypto, events[..|events| - 1]).db.rows then ReadUpTo(crypto, events, from, w, live + [p], n + 1)
      else ReadUpTo(crypto, events, from, w, live, n + 1)
  {
    ReadStays(crypto, events, from, w, live, n);
    var p := w.derivedFrom[n];
    if p !in Run(crypto, events[..|events| - 1]).db.rows { assert MissingAt(crypto, events, |events| - 1, p); }
  }

  ghost predicate AllReadsOk(crypto: Crypto, events: seq<Event>) {
    forall pid :: pid in Run(crypto, events).procs ==> ReadsOk(crypto, events, pid, Run(crypto, events).procs[pid])
  }

  lemma StepReads(crypto: Crypto, events: seq<Event>, pid: nat)
    requires events != [] && pid in Run(crypto, events).procs
    requires AllReadsOk(crypto, events[..|events| - 1])
    ensures ReadsOk(crypto, events, pid, Run(crypto, events).procs[pid])
  {
    var before, e := events[..|events| - 1], events[|events| - 1];
    var sys, next := Run(crypto, before), Run(crypto, events);
    var from := Began(crypto, before, pid);
    if pid in sys.procs && next.procs[pid] == sys.procs[pid] && Began(crypto, events, pid) == from {
      ProcReadsStay(crypto, events, pid, sys.procs[pid]);
    } else if e.Step? && e.pid == pid && pid in sys.procs {
      OwnStepReads(crypto, events, from, sys.procs[pid], e.choice);
    }
  }

  lemma ProcReadsStay(crypto: Crypto, events: seq<Event>, pid: nat, p: Proc)
    requires events != [] && ReadsOk(crypto, events[..|events| - 1], pid, p)
    requires Began(crypto, events, pid) == Began(crypto, events[..|events| - 1], pid)
    ensures ReadsOk(crypto, events, pid, p)
  {
    var from := Began(crypto, events, pid);
    match p
    case Reading(w, _, live, n) => ReadStays(crypto, events, from, w, live, n);
    case Keying(w, _, live, _) => ReadStays(crypto, events, from, w, live, |w.derivedFrom|);
    case Ready(w, _, live, _) => ReadStays(crypto, events, from, w, live, |w.derivedFrom|);
    case _ =>
  }

  lemma OwnStepReads(crypto: Crypto, events: seq<Event>, from: nat, p: Proc, choice: string)
    requires events != [] && events[|events| - 1].Step?
    requires ReadsOk(crypto, events[..|events| - 1], events[|events| - 1].pid, p)
    requires from == Began(crypto, events[..|events| - 1], events[|events| - 1].pid)
    ensures var db := Run(crypto, events[..|events| - 1]).db;
      ReadsOk(crypto, events, events[|events| - 1].pid, Advance(crypto, db, p, choice).1)
  {
    match p
    case Reading(w, _, live, n) =>
      if n < |w.derivedFrom| { ReadOneMore(crypto, events, from, w, live, n); } else { ReadStays(crypto, events, from, w, live, n); }
    case Keying(w, _, live, _) => ReadStays(crypto, events, from, w, live, |w.derivedFrom|);
    case Ready(_, _, _, _) =>
    case _ =>
  }

  lemma {:induction false} RunsReadParents(crypto: Crypto, events: seq<Event>)
    ensures AllReadsOk(crypto, events)
  {
    if events != [] {
      RunsReadParents(crypto, events[..|events| - 1]);
      forall pid | pid in Run(crypto, events).procs ensures ReadsOk(crypto, events, pid, Run(crypto, events).procs[pid]) {
        StepReads(crypto, events, pid);
      }
    }
  }

  /** A committed write is labelled from parents it was asked to derive from, all of them stored
      when it commits; each parent asked for is among them, or was missing at some moment while
      the write was under way. */
  lemma LabelledFromStoredParents(crypto: Crypto, events: seq<Event>, pid: nat, choice: string)
    requires var sys := Run(crypto, events);
      pid in sys.procs && sys.procs[pid].Ready? && CommittedWrite(crypto, sys, Step(pid, choice)).Some?
    ensures var sys, next := Run(crypto, events), Run(crypto, events + [Step(pid, choice)]);
      var w := sys.procs[pid].w;
      && w.id in next.hist.parents
      && (forall p :: p in next.hist.parents[w.id] ==> p in w.derivedFrom && p in sys.db.rows)
      && (forall p :: p in w.derivedFrom ==>
            p in next.hist.parents[w.id] || MissingSince(crypto, events, Began(crypto, events, pid), p))
  {
    RunsReadParents(crypto, events);
    RunsKeepTheStory(crypto, events);
    var sys := Run(crypto, events);
    assert (events + [Step(pid, choice)])[..|events|] == events;
    InsertsAreWrites(crypto, sys, Step(pid, choice));
    assert ReadsOk(crypto, events, pid, sys.procs[pid]);
  }

  // -- Vectors ---------------------------------------------------------------------------------------

  /** What a committed write leaves behind: its row, the vectors as they were, and the process
      about to index it or done. */
  lemma WriteCommits(crypto: Crypto, events: seq<Event>, pid: nat, choice: string)
    requires pid in Run(crypto, events).procs && Run(crypto, events).procs[pid].Ready?
    requires CommittedWrite(crypto, Run(crypto, events), Step(pid, choice)).Some?
    ensures var sys, next := Run(crypto, events), Run(crypto, events + [Step(pid, choice)]);
      var w := sys.procs[pid].w;
      && w.id in next.db.rows && next.db.vecs == sys.db.vecs && next.db.vecTable == sys.db.vecTable
      && pid in next.procs && next.procs[pid] == if w.indexed then Indexing(w.id) else Idle
  {
    RunsKeepTheStory(crypto, events);
    assert (events + [Step(pid, choice)])[..|events|] == events;
    InsertsAreWrites(crypto, Run(crypto, events), Step(pid, choice));
  }

  lemma IndexingStep(crypto: Crypto, events: seq<Event>, pid: nat, choice: string)
    requires pid in Run(crypto, events).procs
    ensures var sys, next := Run(crypto, events), Run(crypto, events + [Step(pid, choice)]);
      var p := sys.procs[pid];
      && (p.Idle? ==> next.db == sys.db)
      && (p.Indexing? ==>
            && next.db.rows == sys.db.rows && next.db.vecTable
            && next.db.vecs == if p.id in sys.db.rows then sys.db.vecs + {p.id} else sys.db.vecs - {p.id})
  {
    assert (events + [Step(pid, choice)])[..|events|] == events;
  }

  /** An indexed write whose process takes its next step while the row is stored leaves its vector
      in the table; one that is not indexed leaves the table alone. */
  lemma IndexedWriteHasVector(crypto: Crypto, events: seq<Event>, pid: nat, one: string, two: string)
    requires pid in Run(crypto, events).procs && Run(crypto, events).procs[pid].Ready?
    requires CommittedWrite(crypto, Run(crypto, events), Step(pid, one)).Some?
    ensures var w := Run(crypto, events).procs[pid].w;
      var db := Run(crypto, (events + [Step(pid, one)]) + [Step(pid, two)]).db;
      if w.indexed then db.vecTable && w.id in db.vecs && w.id in db.rows
      else db.vecs == Run(crypto, events).db.vecs
  {
    WriteCommits(crypto, events, pid, one);
    IndexingStep(crypto, events + [Step(pid, one)], pid, two);
  }
}
