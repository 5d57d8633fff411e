/** The shared database file as a value, and each committed transaction as a function on it. */
module Database {
  import opened Common
  import opened Custody
  import opened Policy

  type Id = string
  type Tenant = string
  type Subject = string

  /** A memory row. `aliases` is None when the stored alias list is not a string array;
      `cipher` is the encrypted content and `written` the plain text it was made from. */
  datatype Row = Row(
    tenant: Tenant, subject: Subject, aliases: Option<seq<Subject>>, createdBy: string, policy: Policy,
    review: string, epistemic: string, contentHash: string, cipher: Bytes, written: string)

  datatype ArtifactKind = MemoryArtifact | EmbeddingArtifact

  datatype Lineage = Lineage(kind: ArtifactKind, subject: Subject, tenant: Tenant)

  /** A key row. An active row without an envelope can only come from outside the program. */
  datatype KeyRow = Active(envelope: Option<Envelope>) | Shredded

  datatype Db = Db(
    rows: map<Id, Row>, edges: set<(Id, Id)>, lineage: map<string, Lineage>,
    keys: map<(Tenant, Subject), KeyRow>, vecTable: bool, vecs: set<Id>, audit: seq<(string, Id)>)

  const EMPTY_DB := Db(map[], {}, map[], map[], false, {}, [])

  function EmbeddingOf(id: Id): string { "emb:" + id }

  // -- Subjects -------------------------------------------------------------------------

  predicate Names(row: Row, s: Subject) {
    row.subject == s || (row.aliases.Some? && s in row.aliases.value)
  }

  predicate IsErased(db: Db, t: Tenant, s: Subject) {
    (t, s) in db.keys && db.keys[(t, s)].Shredded?
  }

  predicate NamesErased(db: Db, row: Row) {
    IsErased(db, row.tenant, row.subject)
    || (row.aliases.Some? && exists s :: s in row.aliases.value && IsErased(db, row.tenant, s))
  }

  /** The rows naming a subject; None when a row of the tenant has a malformed alias list. */
  function SubjectIds(db: Db, t: Tenant, s: Subject): Option<set<Id>> {
    if exists id :: id in db.rows && db.rows[id].tenant == t && db.rows[id].aliases.None? then None
    else Some(set id | id in db.rows && db.rows[id].tenant == t && Names(db.rows[id], s))
  }

  function LineageIds(db: Db, t: Tenant, s: Subject): set<Id> {
    set a | a in db.lineage && db.lineage[a] == Lineage(MemoryArtifact, s, t)
  }

  // -- Provenance reachability ------------------------------------------------------------

  /** `path` walks child edges: each node is a recorded child of the node before it. */
  ghost predicate IsPath(edges: set<(Id, Id)>, path: seq<Id>) {
    path != [] && forall i :: 0 < i < |path| ==> (path[i], path[i - 1]) in edges
  }

  ghost predicate PathFrom(edges: set<(Id, Id)>, seed: set<Id>, path: seq<Id>, n: Id) {
    IsPath(edges, path) && path[0] in seed && path[|path| - 1] == n
  }

  ghost predicate Reaches(edges: set<(Id, Id)>, seed: set<Id>, n: Id) {
    exists path :: PathFrom(edges, seed, path, n)
  }

  function Children(edges: set<(Id, Id)>): set<Id> {
    set e | e in edges :: e.0
  }

  /** Everything derived from the seeds, directly or not, except the seeds themselves. */
  ghost function Descendants(edges: set<(Id, Id)>, seed: set<Id>): set<Id> {
    set n | n in Children(edges) && n !in seed && Reaches(edges, seed, n)
  }

  /** Descendants are exactly the nodes outside the seeds that some path of child edges reaches. */
  lemma DescendantsMean(edges: set<(Id, Id)>, seed: set<Id>, n: Id)
    ensures n in Descendants(edges, seed) <==> n !in seed && exists path :: PathFrom(edges, seed, path, n)
  {
    if n !in seed {
      if path :| PathFrom(edges, seed, path, n) {
        assert |path| > 1;
        assert (path[|path| - 1], path[|path| - 2]) in edges;
      }
    }
  }

  ghost predicate ClosedUnderChildren(edges: set<(Id, Id)>, s: set<Id>) {
    forall e :: e in edges && e.1 in s ==> e.0 in s
  }

  lemma {:induction false} PathStaysInside(edges: set<(Id, Id)>, s: set<Id>, path: seq<Id>)
    requires ClosedUnderChildren(edges, s) && IsPath(edges, path) && path[0] in s
    ensures path[|path| - 1] in s
  {
    if |path| > 1 {
      var before := path[..|path| - 1];
      PathStaysInside(edges, s, before);
      assert (path[|path| - 1], path[|path| - 2]) in edges;
    }
  }

  lemma ReachesChild(edges: set<(Id, Id)>, seed: set<Id>, parent: Id, child: Id)
    requires Reaches(edges, seed, parent) && (child, parent) in edges
    ensures Reaches(edges, seed, child)
  {
    var path :| PathFrom(edges, seed, path, parent);
    assert PathFrom(edges, seed, path + [child], child);
  }

  lemma SeedReaches(edges: set<(Id, Id)>, seed: set<Id>, n: Id)
    requires n in seed
    ensures Reaches(edges, seed, n)
  {
    assert PathFrom(edges, seed, [n], n);
  }

  /** The seeds and their descendants are closed: no kept row is derived from a purged one. */
  lemma PurgedSetIsClosed(edges: set<(Id, Id)>, seed: set<Id>)
    ensures ClosedUnderChildren(edges, seed + Descendants(edges, seed))
  {
    forall e | e in edges && e.1 in seed + Descendants(edges, seed)
      ensures e.0 in seed + Descendants(edges, seed)
    {
      if e.1 in seed { SeedReaches(edges, seed, e.1); }
      ReachesChild(edges, seed, e.1, e.0);
    }
  }

  /** It is also the smallest closed set around the seeds. */
  lemma PurgedSetIsLeast(edges: set<(Id, Id)>, seed: set<Id>, s: set<Id>)
    requires seed <= s && ClosedUnderChildren(edges, s)
    ensures seed + Descendants(edges, seed) <= s
  {
    forall n | n in Descendants(edges, seed) ensures n in s {
      var path :| PathFrom(edges, seed, path, n);
      PathStaysInside(edges, s, path);
    }
  }

  // -- Writing a memory -------------------------------------------------------------------

  /** A retirement: the row and the values it was checked against. */
  datatype Target = Target(id: Id, review: string, epistemic: string, createdBy: string, contentHash: string)

  predicate Matches(row: Row, t: Tenant, target: Target) {
    && row.tenant == t && row.review == target.review && row.epistemic == target.epistemic
    && row.createdBy == target.createdBy && row.contentHash == target.contentHash
  }

  const SUPERSEDED := "superseded"

  /** Retire each target in turn; None as soon as one no longer matches. */
  function Supersede(rows: map<Id, Row>, t: Tenant, targets: seq<Target>): Option<map<Id, Row>> {
    if targets == [] then Some(rows)
    else
      var before := Supersede(rows, t, targets[..|targets| - 1]);
      var target := targets[|targets| - 1];
      if before.None? || target.id !in before.value || !Matches(before.value[target.id], t, target) then None
      else Some(before.value[target.id := before.value[target.id].(review := SUPERSEDED)])
  }

  datatype NewMemory = NewMemory(
    id: Id, row: Row, derivedFrom: seq<Id>, liveParents: set<Id>, superseded: seq<Target>)

  datatype Refusal = SubjectErased | ParentGone | DuplicateId | SupersededChanged

  /** Why an insert writes nothing, checked in this order under the write lock. */
  function InsertRefusal(db: Db, m: NewMemory): Option<Refusal> {
    if NamesErased(db, m.row) then Some(SubjectErased)
    else if !(m.liveParents <= db.rows.Keys) then Some(ParentGone)
    else if m.id in db.rows then Some(DuplicateId)
    else if Supersede(db.rows[m.id := m.row], m.row.tenant, m.superseded).None? then Some(SupersededChanged)
    else None
  }

  function Inserted(db: Db, m: NewMemory): Db
    requires InsertRefusal(db, m).None?
  {
    db.(
      rows := Supersede(db.rows[m.id := m.row], m.row.tenant, m.superseded).value,
      edges := db.edges + (set p | p in m.derivedFrom :: (m.id, p)),
      lineage := db.lineage[m.id := Lineage(MemoryArtifact, m.row.subject, m.row.tenant)]
                           [EmbeddingOf(m.id) := Lineage(EmbeddingArtifact, m.row.subject, m.row.tenant)],
      audit := db.audit + [("remember", m.id)])
  }

  lemma {:induction false} SupersedeTouchesReviewOnly(rows: map<Id, Row>, t: Tenant, targets: seq<Target>)
    ensures var after := Supersede(rows, t, targets);
      after.Some? ==>
        && after.value.Keys == rows.Keys
        && forall id :: id in rows ==> after.value[id].(review := "") == rows[id].(review := "")
  {
    if targets != [] { SupersedeTouchesReviewOnly(rows, t, targets[..|targets| - 1]); }
  }

  /** No two retirements of one row. */
  predicate OnceEach(targets: seq<Target>) {
    forall i, j :: 0 <= i < j < |targets| ==> targets[i].id != targets[j].id
  }

  ghost predicate IsTarget(targets: seq<Target>, id: Id) {
    exists i :: 0 <= i < |targets| && targets[i].id == id
  }

  /** Everything a retirement was checked against still holds of the stored row. */
  predicate Unchanged(rows: map<Id, Row>, t: Tenant, target: Target) {
    && target.id in rows && rows[target.id].tenant == t
    && target == Target(
         target.id, rows[target.id].review, rows[target.id].epistemic, rows[target.id].createdBy, rows[target.id].contentHash)
  }

  lemma TargetsGrow(targets: seq<Target>, id: Id)
    requires targets != []
    ensures IsTarget(targets, id) <==> IsTarget(targets[..|targets| - 1], id) || id == targets[|targets| - 1].id
  {
    var init := targets[..|targets| - 1];
    if IsTarget(init, id) {
      var i :| 0 <= i < |init| && init[i].id == id;
      assert targets[i].id == id;
    }
  }

  /** Retiring rows goes through exactly when every target is unchanged; then exactly the targets
      are superseded and nothing else about any row changes. */
  lemma {:induction false} SupersedeMeans(rows: map<Id, Row>, t: Tenant, targets: seq<Target>)
    requires OnceEach(targets)
    ensures var after := Supersede(rows, t, targets);
      && (after.Some? <==> forall i :: 0 <= i < |targets| ==> Unchanged(rows, t, targets[i]))
      && (after.Some? ==>
            && after.value.Keys == rows.Keys
            && forall id :: id in rows ==>
                 after.value[id] == if IsTarget(targets, id) then rows[id].(review := "superseded") else rows[id])
  {
    if targets != [] {
      var init, last := targets[..|targets| - 1], targets[|targets| - 1];
      SupersedeMeans(rows, t, init);
      assert !IsTarget(init, last.id);
      forall id ensures IsTarget(targets, id) <==> IsTarget(init, id) || id == last.id { TargetsGrow(targets, id); }
      assert (forall i :: 0 <= i < |targets| ==> Unchanged(rows, t, targets[i])) <==>
        (forall i :: 0 <= i < |init| ==> Unchanged(rows, t, init[i])) && Unchanged(rows, t, last);
    }
  }

  // -- Purging --------------------------------------------------------------------------

  function WithoutArtifacts(lineage: map<string, Lineage>, gone: set<Id>): map<string, Lineage> {
    map a | a in lineage && a !in gone && (forall id :: id in gone ==> a != EmbeddingOf(id)) :: lineage[a]
  }

  function WithoutSubject(lineage: map<string, Lineage>, t: Tenant, s: Subject): map<string, Lineage> {
    map a | a in lineage && !(lineage[a].tenant == t && lineage[a].subject == s) :: lineage[a]
  }

  /** Delete rows with every edge that names them and their lineage entries. */
  function WithoutRows(db: Db, gone: set<Id>): Db {
    db.(
      rows := (map id | id in db.rows && id !in gone :: db.rows[id]),
      edges := (set e | e in db.edges && e.0 !in gone && e.1 !in gone),
      lineage := WithoutArtifacts(db.lineage, gone))
  }

  /** The ids a purge selects under the write lock, before the cascade. */
  function Selected(db: Db, t: Tenant, s: Subject, seed: set<Id>): set<Id> {
    var named := SubjectIds(db, t, s);
    seed + (if named.Some? then named.value else {}) + LineageIds(db, t, s)
  }

  ghost function PurgeSet(db: Db, t: Tenant, s: Subject, seed: set<Id>): set<Id> {
    Selected(db, t, s, seed) + Descendants(db.edges, Selected(db, t, s, seed))
  }

  /** A purge rolls back on a malformed alias list, or when the file holds vectors this
      process cannot delete. */
  ghost predicate PurgeRefused(db: Db, t: Tenant, s: Subject, seed: set<Id>, canEraseVectors: bool) {
    SubjectIds(db, t, s).None? || (db.vecTable && !canEraseVectors && PurgeSet(db, t, s, seed) != {})
  }

  ghost function Purged(db: Db, t: Tenant, s: Subject, seed: set<Id>): Db {
    var gone := PurgeSet(db, t, s, seed);
    var kept := WithoutRows(db, gone);
    kept.(lineage := WithoutSubject(kept.lineage, t, s), vecs := if db.vecTable then db.vecs - gone else db.vecs)
  }

  /** A set a purge of the subject cannot reach out of. */
  ghost predicate ClosedAround(db: Db, t: Tenant, s: Subject, seed: set<Id>, closed: set<Id>) {
    Selected(db, t, s, seed) <= closed && ClosedUnderChildren(db.edges, closed)
  }

  /** What a purge leaves: exactly the selected rows and their descendants are gone, no
      edge names a purged id, every other row is untouched and no kept row descends from a
      purged one. */
  lemma PurgeIsExact(db: Db, t: Tenant, s: Subject, seed: set<Id>)
    requires SubjectIds(db, t, s).Some?
    ensures var gone, after := PurgeSet(db, t, s, seed), Purged(db, t, s, seed);
      && after.rows.Keys == db.rows.Keys - gone
      && (forall id :: id in after.rows ==> after.rows[id] == db.rows[id])
      && (forall id :: id in after.rows && after.rows[id].tenant == t ==> !Names(after.rows[id], s))
      && (forall e :: e in after.edges <==> e in db.edges && e.0 !in gone && e.1 !in gone)
      && (forall e :: e in db.edges && e.0 !in gone ==> e.1 !in gone)
      && (forall closed :: ClosedAround(db, t, s, seed, closed) ==> gone <= closed)
      && (forall a :: a in after.lineage ==>
            a in db.lineage && after.lineage[a] == db.lineage[a]
            && !(db.lineage[a].tenant == t && db.lineage[a].subject == s) && a !in gone)
      && (forall id :: id in seed || id in LineageIds(db, t, s) ==> id !in after.rows)
  {
    PurgedSetIsClosed(db.edges, Selected(db, t, s, seed));
    forall closed | ClosedAround(db, t, s, seed, closed) ensures PurgeSet(db, t, s, seed) <= closed {
      PurgedSetIsLeast(db.edges, Selected(db, t, s, seed), closed);
    }
  }

  // -- Keys -------------------------------------------------------------------------------

  /** First row wins: neither a key nor a tombstone is replaced. */
  function KeyCreated(db: Db, t: Tenant, s: Subject, e: Envelope): Db {
    if (t, s) in db.keys then db else db.(keys := db.keys[(t, s) := Active(Some(e))])
  }

  /** Replaces any row but a tombstone. */
  function KeyPut(db: Db, t: Tenant, s: Subject, e: Envelope): Db {
    if IsErased(db, t, s) then db else db.(keys := db.keys[(t, s) := Active(Some(e))])
  }

  function KeyShredded(db: Db, t: Tenant, s: Subject): Db {
    db.(keys := db.keys[(t, s) := Shredded])
  }

  // -- Vectors ----------------------------------------------------------------------------

  /** One statement: the vector is stored only while its memory row exists. */
  function VectorAdded(db: Db, id: Id): Db {
    db.(vecTable := true, vecs := if id in db.rows then db.vecs + {id} else db.vecs - {id})
  }

  function VectorRemoved(db: Db, id: Id): Db {
    db.(vecs := db.vecs - {id})
  }

  function OrphansDropped(db: Db): Db {
    db.(vecs := db.vecs * db.rows.Keys)
  }

  // -- Every committed transaction ------------------------------------------------------------

  datatype Txn =
    | NoTxn
    | Insert(memory: NewMemory)
    | Delete(id: Id)
    | Purge(tenant: Tenant, subject: Subject, seed: set<Id>, canEraseVectors: bool)
    | CreateKey(tenant: Tenant, subject: Subject, envelope: Envelope)
    | PutKey(tenant: Tenant, subject: Subject, envelope: Envelope)
    | ShredKey(tenant: Tenant, subject: Subject)
    | AddVector(id: Id)
    | RemoveVector(id: Id)
    | DropOrphans
    | ClearVectors
    | AddEdge(child: Id, parent: Id)
    | Touch(id: Id, review: string, epistemic: string, createdBy: string)
    | SupersedeOnly(tenant: Tenant, targets: seq<Target>)

  /** The database after a transaction commits, or unchanged when it is refused. */
  ghost function Commit(db: Db, x: Txn): Db {
    match x
    case NoTxn => db
    case Insert(m) => if InsertRefusal(db, m).None? then Inserted(db, m) else db
    case Delete(id) => WithoutRows(db, {id})
    case Purge(t, s, seed, can) => if PurgeRefused(db, t, s, seed, can) then db else Purged(db, t, s, seed)
    case CreateKey(t, s, e) => KeyCreated(db, t, s, e)
    case PutKey(t, s, e) => KeyPut(db, t, s, e)
    case ShredKey(t, s) => KeyShredded(db, t, s)
    case AddVector(id) => VectorAdded(db, id)
    case RemoveVector(id) => VectorRemoved(db, id)
    case DropOrphans => OrphansDropped(db)
    case ClearVectors => db.(vecs := {})
    case AddEdge(c, p) => db.(edges := db.edges + {(c, p)})
    case Touch(id, review, epistemic, createdBy) =>
      if id in db.rows
      then db.(rows := db.rows[id := db.rows[id].(review := review, epistemic := epistemic, createdBy := createdBy)])
      else db
    case SupersedeOnly(t, targets) =>
      var after := Supersede(db.rows, t, targets);
      if after.Some? then db.(rows := after.value) else db
  }
}
