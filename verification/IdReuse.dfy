/** A run in which a reused memory id defeats the check on parents. */
module IdReuse {
  import opened Common
  import opened Custody
  import opened Policy
  import opened Database
  import opened Processes

  const KEY: Bytes := "0123456789abcdef0123456789abcdef"
  const OPEN := Policy(TenantWide, Public, false, {}, {}, [])

  /** A write of one memory of subject "s", not indexed, with raw keys. */
  function WriteOf(id: Id, own: Policy, derivedFrom: seq<Id>): WriteArgs {
    WriteArgs(id, "t", "s", [], "writer", "text", own, derivedFrom, [], "active", "observed", "hash", false, RawLocal)
  }

  function BeginWrite(pid: nat, w: WriteArgs): Event {
    Begin(pid, Reading(w, StartMark(w.own), [], 0))
  }

  /** A parent is written and read by a child's writer, then deleted; another memory is stored
      under its id, with a stricter policy; then the child commits. */
  function ReuseRun(): seq<Event> {
    (WriteParent() + ReadByChild()) + (DeleteParent() + (ReuseId() + [Step(1, "")]))
  }

  function WriteParent(): seq<Event> {
    DrawKey() + [Step(0, ""), Step(0, ""), Step(0, "")]
  }

  function DrawKey(): seq<Event> {
    [BeginWrite(0, WriteOf("p", OPEN, [])), Step(0, ""), Step(0, KEY)]
  }

  function ReadByChild(): seq<Event> {
    ReadParentRow() + Twice(1)
  }

  function ReadParentRow(): seq<Event> {
    [BeginWrite(1, WriteOf("child", OPEN, ["p"])), Step(1, "")]
  }

  function DeleteParent(): seq<Event> {
    [Begin(2, Deleting("p")), Step(2, "")]
  }

  function ReuseId(): seq<Event> {
    BeginReuse() + Twice(0)
  }

  function BeginReuse(): seq<Event> {
    [BeginWrite(0, Reuser()), Step(0, "")]
  }

  function Reuser(): WriteArgs {
    WriteOf("p", OPEN.(classification := Restricted), [])
  }

  function Twice(pid: nat): seq<Event> {
    [Step(pid, ""), Step(pid, "")]
  }

  /** Events applied one after the other. */
  ghost function Apply(crypto: Crypto, sys: System, events: seq<Event>): System
    decreases |events|
  {
    if events == [] then sys else Apply(crypto, Next(crypto, sys, events[0]), events[1..])
  }

  lemma {:induction false} ApplyAppend(crypto: Crypto, sys: System, a: seq<Event>, b: seq<Event>)
    ensures Apply(crypto, sys, a + b) == Apply(crypto, Apply(crypto, sys, a), b)
    decreases |a|
  {
    if a == [] {
      assert a + b == b;
    } else {
      assert (a + b)[1..] == a[1..] + b;
      ApplyAppend(crypto, Next(crypto, sys, a[0]), a[1..], b);
    }
  }

  lemma {:induction false} RunIsApply(crypto: Crypto, events: seq<Event>)
    ensures Run(crypto, events) == Apply(crypto, START, events)
  {
    if events != [] {
      var before, last := events[..|events| - 1], events[|events| - 1];
      RunIsApply(crypto, before);
      ApplyAppend(crypto, START, before, [last]);
      assert before + [last] == events;
      assert Apply(crypto, Run(crypto, before), [last]) == Next(crypto, Run(crypto, before), last);
    }
  }

  /** What the example needs to know of a state. */
  ghost predicate At(sys: System, rows: map<Id, Row>, procs: map<nat, Proc>) {
    sys.db.rows == rows && sys.db.keys == map[("t", "s") := Active(Some(Raw(KEY)))] && sys.procs == procs
  }

  function RowOf(crypto: Crypto, w: WriteArgs): Row {
    NewRow(crypto, w, w.own, KEY)
  }

  function ChildReady(): Proc {
    var w := WriteOf("child", OPEN, ["p"]);
    Ready(w, Marked(OPEN, Raise(StartMark(OPEN), OPEN)), ["p"], KEY)
  }

  lemma ParentIsWritten(crypto: Crypto)
    ensures At(Apply(crypto, START, WriteParent()), map["p" := RowOf(crypto, WriteOf("p", OPEN, []))], map[0 := Idle])
  {
    ApplyAppend(crypto, START, DrawKey(), [Step(0, ""), Step(0, ""), Step(0, "")]);
    KeyIsDrawn(crypto);
    KeyIsUsed(crypto, Apply(crypto, START, DrawKey()));
  }

  lemma KeyIsDrawn(crypto: Crypto)
    ensures var sys := Apply(crypto, START, DrawKey());
      sys.db == EMPTY_DB && sys.procs == map[0 := Keying(WriteOf("p", OPEN, []), OPEN, [], Creating(KEY))]
  {
    var w, e := WriteOf("p", OPEN, []), DrawKey();
    var begun := Next(crypto, START, e[0]);
    var reading := Next(crypto, begun, e[1]);
    assert reading.db == EMPTY_DB && reading.procs == map[0 := Keying(w, OPEN, [], Lookup)];
    assert |KEY| == KEY_LENGTH;
    ThreeSteps(crypto, START, e);
  }

  lemma KeyIsStored(crypto: Crypto, sys: System)
    requires sys.db == EMPTY_DB && sys.procs == map[0 := Keying(WriteOf("p", OPEN, []), OPEN, [], Creating(KEY))]
    ensures At(
      Next(crypto, Next(crypto, sys, Step(0, "")), Step(0, "")), map[], map[0 := Ready(WriteOf("p", OPEN, []), OPEN, [], KEY)])
  {
    var created := Next(crypto, sys, Step(0, ""));
    assert At(created, map[], map[0 := Keying(WriteOf("p", OPEN, []), OPEN, [], Rereading(KEY))]);
  }

  lemma KeyIsUsed(crypto: Crypto, sys: System)
    requires sys.db == EMPTY_DB && sys.procs == map[0 := Keying(WriteOf("p", OPEN, []), OPEN, [], Creating(KEY))]
    ensures At(Apply(crypto, sys, [Step(0, ""), Step(0, ""), Step(0, "")]), map["p" := RowOf(crypto, WriteOf("p", OPEN, []))], map[0 := Idle])
  {
    KeyIsStored(crypto, sys);
    var ready := Next(crypto, Next(crypto, sys, Step(0, "")), Step(0, ""));
    RawWriteCommits(crypto, ready, 0, WriteOf("p", OPEN, []), OPEN, []);
    ThreeSteps(crypto, sys, [Step(0, ""), Step(0, ""), Step(0, "")]);
  }

  lemma ThreeSteps(crypto: Crypto, sys: System, e: seq<Event>)
    requires |e| == 3
    ensures Apply(crypto, sys, e) == Next(crypto, Next(crypto, Next(crypto, sys, e[0]), e[1]), e[2])
  {
    ApplyAppend(crypto, sys, e[..2], e[2..]);
    assert e[..2] + e[2..] == e && e[2..] == [e[2]];
    TwoSteps(crypto, sys, e[..2]);
    OneStep(crypto, Apply(crypto, sys, e[..2]), e[2]);
  }

  lemma TwoSteps(crypto: Crypto, sys: System, e: seq<Event>)
    requires |e| == 2
    ensures Apply(crypto, sys, e) == Next(crypto, Next(crypto, sys, e[0]), e[1])
  {
    OneStep(crypto, Next(crypto, sys, e[0]), e[1]);
    assert e[1..] == [e[1]];
  }

  lemma OneStep(crypto: Crypto, sys: System, e: Event)
    ensures Apply(crypto, sys, [e]) == Next(crypto, sys, e)
  {
    assert [e][1..] == [];
  }

  /** A ready write with raw keys, no retirements and stored parents commits. */
  lemma RawWriteCommits(crypto: Crypto, sys: System, pid: nat, w: WriteArgs, policy: Policy, live: seq<Id>)
    requires At(sys, sys.db.rows, sys.procs) && pid in sys.procs && sys.procs[pid] == Ready(w, policy, live, KEY)
    requires w.tenant == "t" && w.subject == "s" && w.aliases == [] && w.superseded == [] && !w.indexed
    requires w.id !in sys.db.rows && forall p :: p in live ==> p in sys.db.rows
    ensures InsertRefusal(sys.db, InsertOf(crypto, w, policy, live, KEY)).None?
    ensures At(Next(crypto, sys, Step(pid, "")), sys.db.rows[w.id := NewRow(crypto, w, policy, KEY)], sys.procs[pid := Idle])
  {
  }

  /** With a raw key stored, a key lookup makes the writer ready. */
  lemma LookupSucceeds(
    crypto: Crypto, sys: System, rows: map<Id, Row>, procs: map<nat, Proc>, pid: nat, w: WriteArgs, policy: Policy,
    live: seq<Id>)
    requires At(sys, rows, procs) && pid in procs && procs[pid] == Keying(w, policy, live, Lookup)
    requires w.tenant == "t" && w.subject == "s" && w.custodian.RawLocal?
    ensures At(Next(crypto, sys, Step(pid, "")), rows, procs[pid := Ready(w, policy, live, KEY)])
  {
  }

  lemma ChildReadsParent(crypto: Crypto, sys: System, rows: map<Id, Row>)
    requires At(sys, rows, map[0 := Idle]) && rows.Keys == {"p"} && rows["p"].policy == OPEN
    ensures At(Apply(crypto, sys, ReadByChild()), rows, map[0 := Idle, 1 := ChildReady()])
  {
    ApplyAppend(crypto, sys, ReadParentRow(), Twice(1));
    ParentIsRead(crypto, sys, rows);
    KeyIsFound(crypto, Apply(crypto, sys, ReadParentRow()), rows);
  }

  function ChildReading(): Proc {
    Reading(WriteOf("child", OPEN, ["p"]), Raise(StartMark(OPEN), OPEN), ["p"], 1)
  }

  lemma ParentIsRead(crypto: Crypto, sys: System, rows: map<Id, Row>)
    requires At(sys, rows, map[0 := Idle]) && rows.Keys == {"p"} && rows["p"].policy == OPEN
    ensures At(Apply(crypto, sys, ReadParentRow()), rows, map[0 := Idle, 1 := ChildReading()])
  {
    var w, e := WriteOf("child", OPEN, ["p"]), ReadParentRow();
    var begun := Next(crypto, sys, e[0]);
    assert At(begun, rows, map[0 := Idle, 1 := Reading(w, StartMark(OPEN), [], 0)]);
    assert [] + ["p"] == ["p"] && w.derivedFrom[0] == "p" && "p" in rows;
    TwoSteps(crypto, sys, e);
  }

  lemma KeyIsFound(crypto: Crypto, sys: System, rows: map<Id, Row>)
    requires At(sys, rows, map[0 := Idle, 1 := ChildReading()])
    ensures At(Apply(crypto, sys, Twice(1)), rows, map[0 := Idle, 1 := ChildReady()])
  {
    var w, e := WriteOf("child", OPEN, ["p"]), Twice(1);
    var marked := Next(crypto, sys, e[0]);
    assert At(marked, rows, map[0 := Idle, 1 := Keying(w, Marked(OPEN, Raise(StartMark(OPEN), OPEN)), ["p"], Lookup)]);
    LookupSucceeds(crypto, marked, rows, marked.procs, 1, w, Marked(OPEN, Raise(StartMark(OPEN), OPEN)), ["p"]);
    TwoSteps(crypto, sys, e);
  }

  lemma ParentIsDeleted(crypto: Crypto, sys: System, rows: map<Id, Row>)
    requires At(sys, rows, map[0 := Idle, 1 := ChildReady()]) && rows.Keys == {"p"}
    ensures At(Apply(crypto, sys, DeleteParent()), map[], Waiting(Idle))
  {
    var e := DeleteParent();
    var s1 := Next(crypto, sys, e[0]);
    assert At(s1, rows, map[0 := Idle, 1 := ChildReady(), 2 := Deleting("p")]);
    TwoSteps(crypto, sys, e);
  }

  function Waiting(reuse: Proc): map<nat, Proc> {
    map[0 := reuse, 1 := ChildReady(), 2 := Unindexing({"p"})]
  }

  lemma IdIsReused(crypto: Crypto, sys: System)
    requires At(sys, map[], Waiting(Idle))
    ensures At(Apply(crypto, sys, ReuseId()), map["p" := RowOf(crypto, Reuser())], Waiting(Idle))
  {
    ApplyAppend(crypto, sys, BeginReuse(), Twice(0));
    ReuseBegins(crypto, sys);
    ReuseCommits(crypto, Apply(crypto, sys, BeginReuse()));
  }

  lemma NowWaiting(before: Proc, reuse: Proc)
    ensures Waiting(before)[0 := reuse] == Waiting(reuse)
  {
  }

  lemma ReuseBegins(crypto: Crypto, sys: System)
    requires At(sys, map[], Waiting(Idle))
    ensures At(Apply(crypto, sys, BeginReuse()), map[], Waiting(Keying(Reuser(), Reuser().own, [], Lookup)))
  {
    var w, e := Reuser(), BeginReuse();
    NowWaiting(Idle, Reading(w, StartMark(w.own), [], 0));
    var begun := Next(crypto, sys, e[0]);
    assert At(begun, map[], Waiting(Reading(w, StartMark(w.own), [], 0)));
    NowWaiting(Reading(w, StartMark(w.own), [], 0), Keying(w, w.own, [], Lookup));
    TwoSteps(crypto, sys, e);
  }

  lemma ReuseCommits(crypto: Crypto, sys: System)
    requires At(sys, map[], Waiting(Keying(Reuser(), Reuser().own, [], Lookup)))
    ensures At(Apply(crypto, sys, Twice(0)), map["p" := RowOf(crypto, Reuser())], Waiting(Idle))
  {
    var w := Reuser();
    LookupSucceeds(crypto, sys, map[], sys.procs, 0, w, w.own, []);
    NowWaiting(Keying(w, w.own, [], Lookup), Ready(w, w.own, [], KEY));
    ReuseIsStored(crypto, Next(crypto, sys, Step(0, "")));
    TwoSteps(crypto, sys, Twice(0));
  }

  lemma ReuseIsStored(crypto: Crypto, sys: System)
    requires At(sys, map[], Waiting(Ready(Reuser(), Reuser().own, [], KEY)))
    ensures At(Next(crypto, sys, Step(0, "")), map["p" := RowOf(crypto, Reuser())], Waiting(Idle))
  {
    RawWriteCommits(crypto, sys, 0, Reuser(), Reuser().own, []);
    NowWaiting(Ready(Reuser(), Reuser().own, [], KEY), Idle);
  }

  /** The memory stored under the reused id, and the labels the child was given. */
  ghost predicate Deceived(sys: System) {
    && sys.db.rows.Keys == {"p", "child"} && ("child", "p") in sys.db.edges
    && sys.db.rows["child"].policy.classification == Public && sys.db.rows["p"].policy.classification == Restricted
    && !Dominates(sys.db.rows["child"].policy, sys.db.rows["p"].policy)
  }

  lemma ChildCommits(crypto: Crypto, sys: System)
    requires sys.db.rows == map["p" := RowOf(crypto, Reuser())]
    requires At(sys, sys.db.rows, sys.procs) && 1 in sys.procs && sys.procs[1] == ChildReady()
    ensures Deceived(Next(crypto, sys, Step(1, "")))
  {
    RawWriteCommits(crypto, sys, 1, ChildReady().w, ChildReady().policy, ["p"]);
    assert "p" in InsertOf(crypto, ChildReady().w, ChildReady().policy, ["p"], KEY).derivedFrom;
  }

  /** With a reused id the check is blind: at the end of this run the child is stored with the
      labels of a parent that is gone, below those of the memory now stored under its id. */
  lemma ReusedParentIsNotNoticed(crypto: Crypto)
    ensures Deceived(Run(crypto, ReuseRun()))
  {
    var early, late := WriteParent() + ReadByChild(), DeleteParent() + (ReuseId() + [Step(1, "")]);
    RunIsApply(crypto, ReuseRun());
    ApplyAppend(crypto, START, early, late);
    FirstSteps(crypto);
    MiddleSteps(crypto, Apply(crypto, START, early));
  }

  lemma FirstSteps(crypto: Crypto)
    ensures var sys := Apply(crypto, START, WriteParent() + ReadByChild());
      At(sys, sys.db.rows, map[0 := Idle, 1 := ChildReady()]) && sys.db.rows.Keys == {"p"}
  {
    ApplyAppend(crypto, START, WriteParent(), ReadByChild());
    ParentIsWritten(crypto);
    var written := Apply(crypto, START, WriteParent());
    ChildReadsParent(crypto, written, written.db.rows);
  }

  lemma MiddleSteps(crypto: Crypto, sys: System)
    requires At(sys, sys.db.rows, map[0 := Idle, 1 := ChildReady()]) && sys.db.rows.Keys == {"p"}
    ensures Deceived(Apply(crypto, sys, DeleteParent() + (ReuseId() + [Step(1, "")])))
  {
    ApplyAppend(crypto, sys, DeleteParent(), ReuseId() + [Step(1, "")]);
    ParentIsDeleted(crypto, sys, sys.db.rows);
    LastSteps(crypto, Apply(crypto, sys, DeleteParent()));
  }

  lemma LastSteps(crypto: Crypto, sys: System)
    requires At(sys, map[], Waiting(Idle))
    ensures Deceived(Apply(crypto, sys, ReuseId() + [Step(1, "")]))
  {
    ApplyAppend(crypto, sys, ReuseId(), [Step(1, "")]);
    IdIsReused(crypto, sys);
    ChildCommits(crypto, Apply(crypto, sys, ReuseId()));
    OneStep(crypto, Apply(crypto, sys, ReuseId()), Step(1, ""));
  }
}
