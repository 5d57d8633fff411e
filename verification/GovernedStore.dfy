/** The store as the program runs it: tables updated in place, one method per transaction. */
module GovernedStore {
  import opened Common
  import opened Custody
  import opened Database

  datatype PurgeResult = PurgeRolledBack | PurgeDone(purged: set<Id>, cascade: set<Id>)

  class Store {
    var rows: map<Id, Row>
    var edges: set<(Id, Id)>
    var lineage: map<string, Lineage>
    var keys: map<(Tenant, Subject), KeyRow>
    var vecTable: bool
    var vecs: set<Id>
    var audit: seq<(string, Id)>

    constructor ()
      ensures View() == EMPTY_DB
    {
      rows, edges, lineage, keys := map[], {}, map[], map[];
      vecTable, vecs, audit := false, {}, [];
    }

    /** The committed content of the file. */
    function View(): Db
      reads this
    {
      Db(rows, edges, lineage, keys, vecTable, vecs, audit)
    }

    // -- Writing -------------------------------------------------------------------------

    /** Retire the targets in turn, all or none. */
    method SupersedeRows(t: Tenant, targets: seq<Target>) returns (all: bool)
      modifies this
      ensures all <==> Supersede(old(rows), t, targets).Some?
      ensures all ==> View() == old(View()).(rows := Supersede(old(rows), t, targets).value)
      ensures View() == old(View()).(rows := rows)
    {
      for i := 0 to |targets|
        invariant View() == old(View()).(rows := rows)
        invariant Supersede(old(rows), t, targets[..i]) == Some(rows)
      {
        assert targets[..i + 1][..i] == targets[..i];
        var target := targets[i];
        if target.id !in rows || !Matches(rows[target.id], t, target) {
          SupersedeFailsEarly(old(rows), t, targets, i + 1);
          return false;
        }
        rows := rows[target.id := rows[target.id].(review := SUPERSEDED)];
      }
      assert targets[..|targets|] == targets;
      return true;
    }

    /** One transaction: every check runs under the write lock, and a refusal leaves the
        file as it was. */
    method InsertMemorySuperseding(m: NewMemory) returns (refused: Option<Refusal>)
      modifies this
      ensures refused == InsertRefusal(old(View()), m)
      ensures View() == Commit(old(View()), Insert(m))
      ensures refused.Some? ==> View() == old(View())
    {
      if NamesErased(View(), m.row) {
        return Some(SubjectErased);
      }
      if !(m.liveParents <= rows.Keys) {
        return Some(ParentGone);
      }
      if m.id in rows {
        return Some(DuplicateId);
      }
      var savedRows := rows;
      rows := rows[m.id := m.row];
      var retired := SupersedeRows(m.row.tenant, m.superseded);
      if !retired {
        rows := savedRows;
        return Some(SupersededChanged);
      }
      AddEdges(m.id, m.derivedFrom);
      lineage := lineage[m.id := Lineage(MemoryArtifact, m.row.subject, m.row.tenant)]
                        [EmbeddingOf(m.id) := Lineage(EmbeddingArtifact, m.row.subject, m.row.tenant)];
      audit := audit + [("remember", m.id)];
      return None;
    }

    method AddEdges(child: Id, parents: seq<Id>)
      modifies this`edges
      ensures edges == old(edges) + set p | p in parents :: (child, p)
    {
      for i := 0 to |parents|
        invariant edges == old(edges) + set p | p in parents[..i] :: (child, p)
      {
        edges := edges + {(child, parents[i])};
        assert parents[..i + 1] == parents[..i] + [parents[i]];
      }
      assert parents[..|parents|] == parents;
    }

    // -- Erasing -------------------------------------------------------------------------

    /** The worklist over child edges. It visits every node once, whatever cycles the graph
        holds, and returns exactly the descendants. */
    method FindDescendants(seed: set<Id>) returns (out: set<Id>)
      ensures out == Descendants(edges, seed)
    {
      var links := edges;
      var seen := seed;
      var frontier := SetToSeq(seed);
      out := {};
      ExploreStart(links, seed);
      while frontier != []
        invariant seen == seed + out && Exploring(links, seed, out, Elements(frontier))
        decreases Children(links) - out, |frontier|
      {
        frontier, seen, out := Visit(links, seed, frontier, seen, out);
      }
      ExploreEnd(links, seed, out);
    }

    /** One turn: the last node of the frontier gives way to its unseen children. */
    static method Visit(links: set<(Id, Id)>, ghost seed: set<Id>, frontier: seq<Id>, seen: set<Id>, out: set<Id>)
      returns (next: seq<Id>, nowSeen: set<Id>, more: set<Id>)
      requires frontier != [] && seen == seed + out && Exploring(links, seed, out, Elements(frontier))
      ensures nowSeen == seed + more && Exploring(links, seed, more, Elements(next))
      ensures Children(links) - more < Children(links) - out
        || (Children(links) - more == Children(links) - out && |next| < |frontier|)
    {
      var node, rest := frontier[|frontier| - 1], frontier[..|frontier| - 1];
      var found := UnseenChildren(links, seen, node);
      var added := SetToSeq(found);
      ElementsOfLast(frontier);
      ElementsOfAppend(rest, added);
      ExploreNode(links, seed, out, Elements(rest), node);
      next, nowSeen, more := rest + added, seen + found, out + found;
      assert found == {} ==> more == out;
    }

    method PurgeSubject(t: Tenant, s: Subject, seed: set<Id>, canEraseVectors: bool) returns (result: PurgeResult)
      modifies this
      ensures result.PurgeRolledBack? <==>
        || (exists id :: id in old(rows) && old(rows)[id].tenant == t && old(rows)[id].aliases.None?)
        || (old(vecTable) && !canEraseVectors && PurgeSet(old(View()), t, s, seed) != {})
      ensures View() == Commit(old(View()), Purge(t, s, seed, canEraseVectors))
      ensures result.PurgeDone? ==>
        && result.purged == PurgeSet(old(View()), t, s, seed)
        && result.cascade == Descendants(old(edges), Selected(old(View()), t, s, seed))
    {
      var named := SubjectIds(View(), t, s);
      if named.None? {
        return PurgeRolledBack;
      }
      var selected := seed + named.value + LineageIds(View(), t, s);
      var cascade := FindDescendants(selected);
      var purged := selected + cascade;
      if purged != {} && vecTable {
        if !canEraseVectors {
          return PurgeRolledBack;
        }
        vecs := vecs - purged;
      }
      DeleteAll(purged);
      lineage := WithoutSubject(lineage, t, s);
      return PurgeDone(purged, cascade);
    }

    /** Delete the rows of a set of ids one by one. */
    method DeleteAll(gone: set<Id>)
      modifies this
      ensures View() == WithoutRows(old(View()), gone)
    {
      var todo := SetToSeq(gone);
      assert View() == WithoutRows(old(View()), {});
      for i := 0 to |todo|
        invariant View() == WithoutRows(old(View()), Elements(todo[..i]))
      {
        DeletingTwice(old(View()), Elements(todo[..i]), {todo[i]});
        DeleteMemoryRows(todo[i]);
        assert Elements(todo[..i]) + {todo[i]} == Elements(todo[..i + 1]);
      }
      assert todo[..|todo|] == todo;
    }

    method DeleteMemoryRows(id: Id)
      modifies this
      ensures View() == WithoutRows(old(View()), {id})
    {
      OneRowGone(View(), id);
      rows := map k | k in rows && k != id :: rows[k];
      edges := set e | e in edges && e.0 != id && e.1 != id;
      lineage := map a | a in lineage && a != id && a != EmbeddingOf(id) :: lineage[a];
    }

    // -- Keys ----------------------------------------------------------------------------

    /** Stores a first key, then reads the row back. */
    method CreateKeyRow(t: Tenant, s: Subject, e: Envelope) returns (stored: KeyRow)
      modifies this
      ensures View() == Commit(old(View()), CreateKey(t, s, e))
      ensures stored == keys[(t, s)]
      ensures stored == (if (t, s) in old(keys) then old(keys)[(t, s)] else Active(Some(e)))
    {
      if (t, s) !in keys {
        keys := keys[(t, s) := Active(Some(e))];
      }
      stored := keys[(t, s)];
    }

    method PutKeyRow(t: Tenant, s: Subject, e: Envelope) returns (stored: bool)
      modifies this
      ensures View() == Commit(old(View()), PutKey(t, s, e))
      ensures stored <==> !IsErased(old(View()), t, s)
    {
      stored := !IsErased(View(), t, s);
      if stored {
        keys := keys[(t, s) := Active(Some(e))];
      }
    }

    method ShredKeyRow(t: Tenant, s: Subject)
      modifies this
      ensures View() == Commit(old(View()), ShredKey(t, s))
    {
      keys := keys[(t, s) := Shredded];
    }

    // -- Vectors -------------------------------------------------------------------------

    method AddIfStored(id: Id)
      modifies this
      ensures View() == Commit(old(View()), AddVector(id))
    {
      vecTable := true;
      vecs := vecs - {id};
      if id in rows {
        vecs := vecs + {id};
      }
    }

    method DropOrphanVectors() returns (orphans: set<Id>)
      modifies this
      ensures View() == if old(vecTable) then Commit(old(View()), DropOrphans) else old(View())
      ensures orphans == if old(vecTable) then old(vecs) - rows.Keys else {}
    {
      if !vecTable {
        return {};
      }
      orphans := set v | v in vecs && v !in rows;
      vecs := vecs - orphans;
    }

    /** A rebuild of the index: a process that created the table empties it, any other drops
        the orphans; then every listed row's vector is added again while its row exists. */
    method Rebuild(created: bool, listed: seq<Id>)
      requires !vecTable ==> vecs == {}
      modifies this
      ensures View().(vecs := {}, vecTable := false) == old(View()).(vecs := {}, vecTable := false)
      ensures vecs == (if created then {} else old(vecs) * rows.Keys) + Elements(listed) * rows.Keys
      ensures vecTable == (old(vecTable) || listed != [])
    {
      if created {
        vecs := {};
      } else {
        var dropped := DropOrphanVectors();
      }
      ghost var start := vecs;
      for i := 0 to |listed|
        invariant View().(vecs := {}, vecTable := false) == old(View()).(vecs := {}, vecTable := false)
        invariant vecs == start - Elements(listed[..i]) + (Elements(listed[..i]) * rows.Keys)
        invariant vecTable == (old(vecTable) || i > 0)
      {
        AddIfStored(listed[i]);
        assert Elements(listed[..i + 1]) == Elements(listed[..i]) + {listed[i]};
      }
      assert listed[..|listed|] == listed;
    }
  }

  // -- Helpers ---------------------------------------------------------------------------

  lemma ElementsOfLast<T>(s: seq<T>)
    requires s != []
    ensures Elements(s) == Elements(s[..|s| - 1]) + {s[|s| - 1]}
  {
  }

  /** The nodes of `seen` with a child that has not been seen. */
  function Pending(edges: set<(Id, Id)>, seen: set<Id>): set<Id> {
    set e | e in edges && e.1 in seen && e.0 !in seen :: e.1
  }

  function UnseenChildren(edges: set<(Id, Id)>, seen: set<Id>, node: Id): (found: set<Id>)
    ensures found <= Children(edges) && found !! seen
  {
    set e | e in edges && e.1 == node && e.0 !in seen :: e.0
  }

  /** What the worklist keeps: it has found only descendants, and whatever it has not
      found yet hangs below a node still on the frontier. */
  ghost predicate Exploring(edges: set<(Id, Id)>, seed: set<Id>, out: set<Id>, frontier: set<Id>) {
    && out <= Descendants(edges, seed) && frontier <= seed + out
    && Pending(edges, seed + out) <= frontier
  }

  lemma ExploreStart(edges: set<(Id, Id)>, seed: set<Id>)
    ensures Exploring(edges, seed, {}, seed)
  {
    assert seed + {} == seed;
  }

  lemma ExploreNode(edges: set<(Id, Id)>, seed: set<Id>, out: set<Id>, rest: set<Id>, node: Id)
    requires Exploring(edges, seed, out, rest + {node})
    ensures var found := UnseenChildren(edges, seed + out, node);
      && Exploring(edges, seed, out + found, rest + found)
      && seed + (out + found) == seed + out + found
      && Children(edges) - (out + found) <= Children(edges) - out
      && (found != {} ==> Children(edges) - (out + found) < Children(edges) - out)
  {
    var found := UnseenChildren(edges, seed + out, node);
    PurgedSetIsClosed(edges, seed);
    assert found <= seed + Descendants(edges, seed);
    ExploringLeavesPending(edges, seed + out, rest, node, found);
    if found != {} {
      var n :| n in found;
      assert n in Children(edges) - out && n !in Children(edges) - (out + found);
    }
  }

  lemma ExploreEnd(edges: set<(Id, Id)>, seed: set<Id>, out: set<Id>)
    requires Exploring(edges, seed, out, {})
    ensures out == Descendants(edges, seed)
  {
    var seen := seed + out;
    forall e | e in edges && e.1 in seen ensures e.0 in seen {
      assert e.0 !in seen ==> e.1 in Pending(edges, seen);
    }
    PurgedSetIsLeast(edges, seed, seen);
  }

  lemma ExploringLeavesPending(edges: set<(Id, Id)>, seen: set<Id>, rest: set<Id>, node: Id, found: set<Id>)
    requires Pending(edges, seen) <= rest + {node} && found == UnseenChildren(edges, seen, node)
    ensures Pending(edges, seen + found) <= rest + found
  {
    forall n | n in Pending(edges, seen + found) ensures n in rest + found {
      var e :| e in edges && e.1 == n && e.0 !in seen + found;
      assert n == node ==> e.0 in found;
      assert n in seen ==> n in Pending(edges, seen);
    }
  }

  /** Some listing of a finite set. */
  method SetToSeq(s: set<Id>) returns (r: seq<Id>)
    ensures Elements(r) == s && |r| == |s|
  {
    var left := s;
    r := [];
    while left != {}
      invariant left <= s && Elements(r) == s - left && |r| + |left| == |s|
      decreases |left|
    {
      var x :| x in left;
      left := left - {x};
      assert Elements(r + [x]) == Elements(r) + {x};
      r := r + [x];
    }
  }

  lemma {:induction false} SupersedeFailsEarly(rows: map<Id, Row>, t: Tenant, targets: seq<Target>, n: nat)
    requires n <= |targets| && Supersede(rows, t, targets[..n]).None?
    ensures Supersede(rows, t, targets).None?
  {
    if n == |targets| {
      assert targets[..n] == targets;
    } else {
      assert targets[..|targets| - 1][..n] == targets[..n];
      SupersedeFailsEarly(rows, t, targets[..|targets| - 1], n);
    }
  }

  lemma OneRowGone(db: Db, id: Id)
    ensures WithoutRows(db, {id}) == db.(
      rows := (map k | k in db.rows && k != id :: db.rows[k]),
      edges := (set e | e in db.edges && e.0 != id && e.1 != id),
      lineage := (map a | a in db.lineage && a != id && a != EmbeddingOf(id) :: db.lineage[a]))
  {
  }

  lemma DeletingTwice(db: Db, a: set<Id>, b: set<Id>)
    ensures WithoutRows(WithoutRows(db, a), b) == WithoutRows(db, a + b)
  {
    assert WithoutRows(WithoutRows(db, a), b).rows == WithoutRows(db, a + b).rows;
    assert WithoutRows(WithoutRows(db, a), b).lineage == WithoutRows(db, a + b).lineage;
  }
}
