/** What either index answers, hit by hit: the offered vectors nearest to the query. */
module SearchMeaning {
  import opened Common
  import opened VectorSearch
  import opened Fusion
  import opened StableOrder

  // -- The index in the file ----------------------------------------------------------------------

  predicate Offered(file: VecFile, tenant: Tenant, allowed: Option<seq<Id>>, id: Id) {
    id in file.table && file.table[id].tenant == tenant && (allowed.Some? ==> id in allowed.value)
  }

  function DistanceOf(file: VecFile, q: Vector, id: Id): real
    requires id in file.table
  {
    file.distance(file.table[id].vector, q)
  }

  /** Nearer to the query, or as near with the smaller id. */
  predicate Nearer(file: VecFile, q: Vector, a: Id, b: Id)
    requires a in file.table && b in file.table
  {
    DistanceOf(file, q, a) < DistanceOf(file, q, b) || (DistanceOf(file, q, a) == DistanceOf(file, q, b) && IdBefore(a, b))
  }

  predicate IsHit(hits: seq<(Id, real)>, id: Id) {
    exists i :: 0 <= i < |hits| && hits[i].0 == id
  }

  predicate FileHitOk(file: VecFile, tenant: Tenant, q: Vector, allowed: Option<seq<Id>>, hit: (Id, real)) {
    Offered(file, tenant, allowed, hit.0) && hit.1 == -DistanceOf(file, q, hit.0)
  }

  /** The hits are offered rows with their negated distances, nearest first, as many as asked for
      and offered; whatever was left out is farther than every hit. */
  ghost predicate AnswersFile(file: VecFile, tenant: Tenant, q: Vector, n: nat, allowed: Option<seq<Id>>, hits: seq<(Id, real)>)
  {
    && (forall i :: 0 <= i < |hits| ==> FileHitOk(file, tenant, q, allowed, hits[i]))
    && (forall i, j :: 0 <= i < j < |hits| ==>
          (hits[i].0 != hits[j].0 && Nearer(file, q, hits[i].0, hits[j].0)))
    && |hits| == SliceEnd(n, |set id | id in file.table && Offered(file, tenant, allowed, id)|)
    && (forall id, i :: Offered(file, tenant, allowed, id) && !IsHit(hits, id) && 0 <= i < |hits| ==>
          Nearer(file, q, hits[i].0, id))
  }

  /** The eligible hits are the offered rows, each once. */
  lemma EligibleMeans(file: VecFile, tenant: Tenant, q: Vector, allowed: Option<seq<Id>>)
    ensures forall h :: h in Eligible(file, tenant, q, allowed) <==>
      Offered(file, tenant, allowed, h.id) && h.distance == DistanceOf(file, q, h.id)
    ensures |Eligible(file, tenant, q, allowed)| == |set id | id in file.table && Offered(file, tenant, allowed, id)|
  {
    var ids := set id | id in file.table && Offered(file, tenant, allowed, id);
    var all := Eligible(file, tenant, q, allowed);
    forall h ensures h in all <==> Offered(file, tenant, allowed, h.id) && h.distance == DistanceOf(file, q, h.id) {
      assert h == Hit(h.id, h.distance);
    }
    OneHitEach(file, tenant, q, allowed, ids, all);
  }

  lemma {:induction false} OneHitEach(
    file: VecFile, tenant: Tenant, q: Vector, allowed: Option<seq<Id>>, ids: set<Id>, hits: set<Hit>)
    requires forall id :: id in ids ==> id in file.table
    requires forall h :: h in hits <==> h.id in ids && h.distance == DistanceOf(file, q, h.id)
    ensures |hits| == |ids|
    decreases |ids|
  {
    if ids == {} {
      assert hits == {};
    } else {
      var id :| id in ids;
      var h := Hit(id, DistanceOf(file, q, id));
      assert h in hits;
      OneHitEach(file, tenant, q, allowed, ids - {id}, hits - {h});
    }
  }

  /** The rows behind the hits. */
  ghost predicate BestRows(file: VecFile, tenant: Tenant, q: Vector, n: nat, allowed: Option<seq<Id>>, rows: seq<Hit>) {
    && IsTop(Eligible(file, tenant, q, allowed), n, rows)
    && (forall h :: h in Eligible(file, tenant, q, allowed) <==>
          Offered(file, tenant, allowed, h.id) && h.distance == DistanceOf(file, q, h.id))
    && forall i :: 0 <= i < |rows| ==> rows[i] in Eligible(file, tenant, q, allowed)
  }

  lemma TakenAreBest(file: VecFile, tenant: Tenant, q: Vector, n: nat, allowed: Option<seq<Id>>)
    ensures BestRows(file, tenant, q, n, allowed, Take(VectorSearch.Ranked(Eligible(file, tenant, q, allowed)), n))
  {
    var all := Eligible(file, tenant, q, allowed);
    var rows := Take(VectorSearch.Ranked(all), n);
    EligibleMeans(file, tenant, q, allowed);
    RankedPrefixIsTop(all, n);
    forall i | 0 <= i < |rows| ensures rows[i] in all { assert rows[i] in Elements(rows); }
  }

  lemma RowsInOrder(
    file: VecFile, tenant: Tenant, q: Vector, n: nat, allowed: Option<seq<Id>>, rows: seq<Hit>, i: nat, j: nat)
    requires BestRows(file, tenant, q, n, allowed, rows) && i < j < |rows|
    ensures Offered(file, tenant, allowed, rows[i].id) && Offered(file, tenant, allowed, rows[j].id)
    ensures rows[i].id != rows[j].id && Nearer(file, q, rows[i].id, rows[j].id)
  {
    assert Before(rows[i], rows[j]);
    NotBeforeItself(rows[i].id);
  }

  lemma LeftOutIsFarther(
    file: VecFile, tenant: Tenant, q: Vector, n: nat, allowed: Option<seq<Id>>, rows: seq<Hit>, id: Id, i: nat)
    requires BestRows(file, tenant, q, n, allowed, rows) && i < |rows| && Offered(file, tenant, allowed, id)
    requires forall j :: 0 <= j < |rows| ==> rows[j].id != id
    ensures Offered(file, tenant, allowed, rows[i].id) && Nearer(file, q, rows[i].id, id)
  {
    var h := Hit(id, DistanceOf(file, q, id));
    assert h in Eligible(file, tenant, q, allowed) && rows[i] in rows;
    assert h !in rows;
  }

  /** What a search of the file answers. */
  lemma FileAnswerMeans(file: VecFile, tenant: Tenant, q: Vector, n: nat, allowed: Option<seq<Id>>)
    ensures AnswersFile(
      file, tenant, q, n, allowed, Similarities(Take(VectorSearch.Ranked(Eligible(file, tenant, q, allowed)), n)))
  {
    var rows := Take(VectorSearch.Ranked(Eligible(file, tenant, q, allowed)), n);
    var hits := Similarities(rows);
    TakenAreBest(file, tenant, q, n, allowed);
    EligibleMeans(file, tenant, q, allowed);
    forall i | 0 <= i < |hits| ensures FileHitOk(file, tenant, q, allowed, hits[i]) {
      assert rows[i] in Eligible(file, tenant, q, allowed);
    }
    forall i, j | 0 <= i < j < |hits| ensures hits[i].0 != hits[j].0 && Nearer(file, q, hits[i].0, hits[j].0) {
      RowsInOrder(file, tenant, q, n, allowed, rows, i, j);
    }
    forall id, i | Offered(file, tenant, allowed, id) && !IsHit(hits, id) && 0 <= i < |hits|
      ensures Nearer(file, q, hits[i].0, id)
    {
      forall j | 0 <= j < |rows| ensures rows[j].id != id { assert hits[j].0 == rows[j].id; }
      LeftOutIsFarther(file, tenant, q, n, allowed, rows, id, i);
    }
  }

  /** No id comes before itself. */
  lemma {:induction false} NotBeforeItself(a: Id)
    ensures !IdBefore(a, a)
  {
    if a != "" { NotBeforeItself(a[1..]); }
  }

  // -- The in-memory index --------------------------------------------------------------------------

  predicate OfferedItem(item: Item, tenant: Tenant, allowed: Option<set<Id>>) {
    item.entry.tenant == tenant && (allowed.Some? ==> item.id in allowed.value)
  }

  predicate IsItemHit(num: Numeric, items: seq<Item>, tenant: Tenant, q: Vector, allowed: Option<set<Id>>, hit: (Id, real)) {
    exists i :: 0 <= i < |items| && OfferedItem(items[i], tenant, allowed)
      && hit == (items[i].id, num.dot(items[i].entry.vector, q))
  }

  /** The hits are offered entries with their similarities, most similar first, each id once, as
      many as asked for and offered; whatever was left out is no more similar than any hit. */
  ghost predicate AnswersMemory(
    num: Numeric, items: seq<Item>, tenant: Tenant, q: Vector, n: int, allowed: Option<set<Id>>, hits: seq<(Id, real)>)
  {
    && (forall i :: 0 <= i < |hits| ==> IsItemHit(num, items, tenant, q, allowed, hits[i]))
    && (forall i, j :: 0 <= i < j < |hits| ==> hits[i].0 != hits[j].0 && hits[i].1 >= hits[j].1)
    && |hits| == SliceEnd(n, |OfferedPlaces(items, tenant, allowed)|)
    && (forall k, i :: 0 <= k < |items| && OfferedItem(items[k], tenant, allowed) && !IsHit(hits, items[k].id) && 0 <= i < |hits| ==>
          hits[i].1 >= num.dot(items[k].entry.vector, q))
  }

  function OfferedPlaces(items: seq<Item>, tenant: Tenant, allowed: Option<set<Id>>): set<nat> {
    set i | 0 <= i < |items| && OfferedItem(items[i], tenant, allowed)
  }

  lemma OnePlaceMore(init: seq<Item>, last: Item, tenant: Tenant, allowed: Option<set<Id>>)
    ensures OfferedPlaces(init + [last], tenant, allowed) ==
      OfferedPlaces(init, tenant, allowed) + if OfferedItem(last, tenant, allowed) then {|init|} else {}
  {
    var items := init + [last];
    assert items[|init|] == last && forall i :: 0 <= i < |init| ==> items[i] == init[i];
  }

  /** The chosen entries are the offered ones. */
  lemma {:induction false} ChosenMeans(items: seq<Item>, tenant: Tenant, allowed: Option<set<Id>>)
    ensures forall x :: x in Chosen(items, tenant, allowed) <==> x in items && OfferedItem(x, tenant, allowed)
    ensures |Chosen(items, tenant, allowed)| == |OfferedPlaces(items, tenant, allowed)|
  {
    if items != [] {
      var init, last := items[..|items| - 1], items[|items| - 1];
      assert items == init + [last];
      ChosenMeans(init, tenant, allowed);
      FilterAppend(init, [last], (x: Item) => Selects(x, tenant, allowed));
      OnePlaceMore(init, last, tenant, allowed);
    }
  }

  lemma {:induction false} ChosenIsKeyed(items: seq<Item>, tenant: Tenant, allowed: Option<set<Id>>)
    requires Keyed(items)
    ensures Keyed(Chosen(items, tenant, allowed))
  {
    if items != [] {
      var rest := Chosen(items[1..], tenant, allowed);
      ChosenIsKeyed(items[1..], tenant, allowed);
      forall i | 0 <= i < |rest| ensures rest[i].id != items[0].id {
        assert rest[i] in rest;
        var k :| 0 <= k < |items[1..]| && items[1..][k] == rest[i];
        assert items[k + 1] == rest[i];
      }
    }
  }

  lemma AnswerEntry(num: Numeric, items: seq<Item>, tenant: Tenant, q: Vector, n: int, allowed: Option<set<Id>>, i: nat)
    requires num.Valid() && i < |Answer(num, items, tenant, q, n, allowed)|
    ensures IsItemHit(num, items, tenant, q, allowed, Answer(num, items, tenant, q, n, allowed)[i])
  {
    var chosen := Chosen(items, tenant, allowed);
    var places := num.argsort(Sims(num, chosen, q));
    assert IsSortPermutation(Sims(num, chosen, q), places);
    ChosenMeans(items, tenant, allowed);
    assert chosen[places[i]] in chosen;
    var k :| 0 <= k < |items| && items[k] == chosen[places[i]];
  }

  lemma AnswerInOrder(num: Numeric, items: seq<Item>, tenant: Tenant, q: Vector, n: int, allowed: Option<set<Id>>)
    requires num.Valid() && Keyed(items)
    ensures var hits := Answer(num, items, tenant, q, n, allowed);
      && |hits| == SliceEnd(n, |Chosen(items, tenant, allowed)|)
      && forall i, j :: 0 <= i < j < |hits| ==> hits[i].0 != hits[j].0 && hits[i].1 >= hits[j].1
  {
    var chosen := Chosen(items, tenant, allowed);
    var sims := Sims(num, chosen, q);
    var places := num.argsort(sims);
    assert IsSortPermutation(sims, places);
    ChosenIsKeyed(items, tenant, allowed);
    var hits := Answer(num, items, tenant, q, n, allowed);
    forall i, j | 0 <= i < j < |hits| ensures hits[i].0 != hits[j].0 && hits[i].1 >= hits[j].1 {
      assert places[i] != places[j];
      assert chosen[places[i]].id != chosen[places[j]].id;
    }
  }

  /** What a search of the entries in memory answers. */
  lemma MemoryAnswerMeans(num: Numeric, items: seq<Item>, tenant: Tenant, q: Vector, n: int, allowed: Option<set<Id>>)
    requires num.Valid() && Keyed(items)
    ensures AnswersMemory(num, items, tenant, q, n, allowed, Answer(num, items, tenant, q, n, allowed))
  {
    var hits := Answer(num, items, tenant, q, n, allowed);
    ChosenMeans(items, tenant, allowed);
    AnswerInOrder(num, items, tenant, q, n, allowed);
    forall i | 0 <= i < |hits| ensures IsItemHit(num, items, tenant, q, allowed, hits[i]) {
      AnswerEntry(num, items, tenant, q, n, allowed, i);
    }
    forall k, i | 0 <= k < |items| && OfferedItem(items[k], tenant, allowed) && !IsHit(hits, items[k].id) && 0 <= i < |hits|
      ensures hits[i].1 >= num.dot(items[k].entry.vector, q)
    {
      assert items[k] in items;
      LeftOutIsLess(num, items, tenant, q, n, allowed, items[k], i);
    }
  }

  lemma LeftOutIsLess(
    num: Numeric, items: seq<Item>, tenant: Tenant, q: Vector, n: int, allowed: Option<set<Id>>, x: Item, i: nat)
    requires num.Valid() && x in Chosen(items, tenant, allowed)
    requires var hits := Answer(num, items, tenant, q, n, allowed); i < |hits| && !IsHit(hits, x.id)
    ensures Answer(num, items, tenant, q, n, allowed)[i].1 >= num.dot(x.entry.vector, q)
  {
    var chosen := Chosen(items, tenant, allowed);
    var sims := Sims(num, chosen, q);
    var places := num.argsort(sims);
    var hits := Answer(num, items, tenant, q, n, allowed);
    assert IsSortPermutation(sims, places);
    PermutationCovers(places, |sims|);
    assert forall h :: 0 <= h < |hits| ==> hits[h].0 == chosen[places[h]].id;
    var c :| 0 <= c < |chosen| && chosen[c] == x;
    assert c in places;
    var p :| 0 <= p < |places| && places[p] == c;
    assert p >= |hits|;
  }
}
