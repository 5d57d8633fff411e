/** Dense retrieval: the exact top-n repaired from an approximate nearest-neighbour answer,
    and the in-memory index with its lazily rebuilt matrix. */
module VectorSearch {
  import opened Common

  type Id = string
  type Tenant = string
  type Vector = seq<real>

  datatype Hit = Hit(id: Id, distance: real)

  // -- The order of results ---------------------------------------------------------------

  predicate IdBefore(a: Id, b: Id) {
    b != "" && (a == "" || a[0] < b[0] || (a[0] == b[0] && IdBefore(a[1..], b[1..])))
  }

  /** ORDER BY distance, memid. */
  predicate Before(a: Hit, b: Hit) {
    a.distance < b.distance || (a.distance == b.distance && IdBefore(a.id, b.id))
  }

  lemma {:induction false} IdsAreOrdered(a: Id, b: Id)
    ensures a == b || IdBefore(a, b) || IdBefore(b, a)
    ensures !(IdBefore(a, b) && IdBefore(b, a)) && !IdBefore(a, a)
  {
    if a != "" && b != "" && a[0] == b[0] {
      IdsAreOrdered(a[1..], b[1..]);
      assert a[1..] == b[1..] ==> a == [a[0]] + a[1..] == b;
    }
    if a != "" { IdsAreOrdered(a[1..], a[1..]); }
  }

  lemma {:induction false} IdBeforeIsTransitive(a: Id, b: Id, c: Id)
    requires IdBefore(a, b) && IdBefore(b, c)
    ensures IdBefore(a, c)
  {
    if a != "" && a[0] == b[0] && b[0] == c[0] { IdBeforeIsTransitive(a[1..], b[1..], c[1..]); }
  }

  lemma HitsAreOrdered(a: Hit, b: Hit)
    ensures a == b || Before(a, b) || Before(b, a)
    ensures !(Before(a, b) && Before(b, a)) && !Before(a, a)
  {
    IdsAreOrdered(a.id, b.id);
    IdsAreOrdered(a.id, a.id);
  }

  lemma BeforeIsTransitive(a: Hit, b: Hit, c: Hit)
    requires Before(a, b) && Before(b, c)
    ensures Before(a, c)
  {
    if a.distance == b.distance == c.distance { IdBeforeIsTransitive(a.id, b.id, c.id); }
  }

  predicate IsLeast(hits: set<Hit>, h: Hit) {
    h in hits && forall o :: o in hits ==> o == h || Before(h, o)
  }

  lemma {:induction false} LeastExists(hits: set<Hit>)
    requires hits != {}
    ensures exists h :: IsLeast(hits, h)
    decreases |hits|
  {
    var x :| x in hits;
    var rest := hits - {x};
    assert hits == rest + {x};
    if rest == {} {
      assert IsLeast(hits, x);
    } else {
      LeastExists(rest);
      var y :| IsLeast(rest, y);
      HitsAreOrdered(x, y);
      if Before(y, x) {
        assert IsLeast(hits, y);
      } else {
        forall o | o in hits ensures o == x || Before(x, o) {
          if o != x && o != y { BeforeIsTransitive(x, y, o); }
        }
        assert IsLeast(hits, x);
      }
    }
  }

  lemma LeastIsUnique(hits: set<Hit>)
    ensures forall a, b :: IsLeast(hits, a) && IsLeast(hits, b) ==> a == b
  {
    forall a, b | IsLeast(hits, a) && IsLeast(hits, b) ensures a == b { HitsAreOrdered(a, b); }
  }

  /** The whole result set in order. */
  function Ranked(hits: set<Hit>): (r: seq<Hit>)
    ensures Elements(r) == hits && |r| == |hits|
    decreases |hits|
  {
    if hits == {} then []
    else
      LeastExists(hits);
      LeastIsUnique(hits);
      var least :| IsLeast(hits, least);
      var rest := Ranked(hits - {least});
      ElementsOfAppend([least], rest);
      [least] + rest
  }

  function Take<T>(s: seq<T>, n: nat): seq<T> {
    if n <= |s| then s[..n] else s
  }

  ghost predicate Ascending(r: seq<Hit>) {
    forall i, j :: 0 <= i < j < |r| ==> Before(r[i], r[j])
  }

  /** `r` holds the n best of `hits`, best first. */
  ghost predicate IsTop(hits: set<Hit>, n: nat, r: seq<Hit>) {
    && Ascending(r) && Elements(r) <= hits && |r| == (if n <= |hits| then n else |hits|)
    && forall x, o :: x in r && o in hits && o !in r ==> Before(x, o)
  }

  lemma {:induction false} RankedAscends(hits: set<Hit>)
    ensures Ascending(Ranked(hits))
    decreases |hits|
  {
    if hits != {} {
      var r := Ranked(hits);
      RankedAscends(hits - {r[0]});
      LeastExists(hits);
      LeastIsUnique(hits);
      assert IsLeast(hits, r[0]);
      assert r[1..] == Ranked(hits - {r[0]});
      forall i, j | 0 <= i < j < |r| ensures Before(r[i], r[j]) {
        if i == 0 {
          assert r[j] == r[1..][j - 1];
          assert r[j] in Elements(r[1..]);
        } else {
          assert r[i] == r[1..][i - 1] && r[j] == r[1..][j - 1];
        }
      }
    }
  }

  lemma TopStartsWithLeast(hits: set<Hit>, n: nat, r: seq<Hit>)
    requires IsTop(hits, n, r) && r != []
    ensures IsLeast(hits, r[0]) && n > 0 && IsTop(hits - {r[0]}, n - 1, r[1..])
  {
    var rest := hits - {r[0]};
    assert r == [r[0]] + r[1..];
    ElementsOfAppend([r[0]], r[1..]);
    HitsAreOrdered(r[0], r[0]);
    forall o | o in hits ensures o == r[0] || Before(r[0], o) {
      if o in r {
        var i :| 0 <= i < |r| && r[i] == o;
      }
    }
    assert r[0] !in r[1..];
  }

  lemma RankedStep(hits: set<Hit>, least: Hit)
    requires IsLeast(hits, least)
    ensures Ranked(hits) == [least] + Ranked(hits - {least})
  {
    LeastIsUnique(hits);
  }

  lemma TakeOfCons<T>(x: T, s: seq<T>, n: nat)
    requires n > 0
    ensures Take([x] + s, n) == [x] + Take(s, n - 1)
  {
  }

  lemma EmptyTop(hits: set<Hit>, n: nat)
    requires IsTop(hits, n, [])
    ensures Take(Ranked(hits), n) == []
  {
  }

  /** The n best are one list: whatever satisfies IsTop is the ranked prefix. */
  lemma {:induction false} TopIsRankedPrefix(hits: set<Hit>, n: nat, r: seq<Hit>)
    requires IsTop(hits, n, r)
    ensures r == Take(Ranked(hits), n)
    decreases n
  {
    if r == [] {
      EmptyTop(hits, n);
    } else {
      TopStartsWithLeast(hits, n, r);
      RankedStep(hits, r[0]);
      TopIsRankedPrefix(hits - {r[0]}, n - 1, r[1..]);
      TakeOfCons(r[0], Ranked(hits - {r[0]}), n);
      assert r == [r[0]] + r[1..];
    }
  }

  lemma RankedPrefixIsTop(hits: set<Hit>, n: nat)
    ensures IsTop(hits, n, Take(Ranked(hits), n))
  {
    RankedAscends(hits);
    var all, r := Ranked(hits), Take(Ranked(hits), n);
    forall x, o | x in r && o in hits && o !in r ensures Before(x, o) {
      assert o in Elements(all);
      var i :| 0 <= i < |r| && r[i] == x;
      var j :| 0 <= j < |all| && all[j] == o;
      assert j >= |r|;
    }
  }

  // -- The index in the shared file ---------------------------------------------------------

  datatype Entry = Entry(tenant: Tenant, vector: Vector)

  /** The vector table, the distance function, and the nearest-neighbour operator, which
      may choose freely among equally distant rows. */
  datatype VecFile = VecFile(
    table: map<Id, Entry>, distance: (Vector, Vector) -> real, nearest: (Tenant, Vector, nat) -> set<Hit>)
  {
    function Scored(ids: set<Id>, tenant: Tenant, q: Vector): set<Hit> {
      set id | id in ids && id in table && table[id].tenant == tenant :: Hit(id, distance(table[id].vector, q))
    }

    function All(tenant: Tenant, q: Vector): set<Hit> {
      Scored(table.Keys, tenant, q)
    }
  }

  /** Some k rows of which none outside is strictly closer than one inside. */
  ghost predicate SomeNearest(all: set<Hit>, k: nat, got: set<Hit>) {
    && got <= all && |got| == (if k <= |all| then k else |all|)
    && forall x, o :: x in got && o in all && o !in got ==> x.distance <= o.distance
  }

  ghost predicate OracleHolds(file: VecFile) {
    forall t, q, k :: SomeNearest(file.All(t, q), k, file.nearest(t, q, k))
  }

  /** One extra neighbour is enough: unless the n-th and the next tie, the first n of the
      oracle's answer are the n best, whichever ties it chose. */
  lemma ExtraHitDecides(all: set<Hit>, n: nat, got: set<Hit>)
    requires n > 0 && SomeNearest(all, n + 1, got)
    requires |got| > n ==> Ranked(got)[n - 1].distance != Ranked(got)[n].distance
    ensures Take(Ranked(got), n) == Take(Ranked(all), n)
  {
    if |got| <= n {
      SubsetOfSameSize(got, all);
    } else {
      var rows := Ranked(got);
      RankedAscends(got);
      RankedPrefixIsTop(got, n);
      assert Before(rows[n - 1], rows[n]);
      forall x, o | x in rows[..n] && o in all && o !in rows[..n] ensures Before(x, o) {
        assert x in Elements(rows) && rows[n] in Elements(rows);
        assert x == rows[n - 1] || Before(x, rows[n - 1]);
      }
      TopIsRankedPrefix(all, n, rows[..n]);
    }
  }

  /** Without the repair the answer can be wrong: at a tied cutoff the oracle may leave out
      the smaller id. */
  lemma TieCanHideTheSmallerId()
    ensures exists all, got :: SomeNearest(all, 1, got) && Take(Ranked(got), 1) != Take(Ranked(all), 1)
  {
    var a, b := Hit("a", 1.0), Hit("b", 1.0);
    var all, got := {a, b}, {b};
    LeastIsUnique(all);
    LeastIsUnique(got);
    assert IdBefore("a", "b");
    assert Before(a, b) && IsLeast(all, a) && IsLeast(got, b);
    assert Ranked(all)[0] == a && Ranked(got)[0] == b;
    assert Take(Ranked(all), 1) == [a] && Take(Ranked(got), 1) == [b];
    assert SomeNearest(all, 1, got);
  }

  class SqliteVecIndex {
    var ready: bool
    var file: VecFile

    constructor (file: VecFile)
      ensures this.file == file && !ready
    {
      this.file := file;
      ready := false;
    }

    /** Exactly the n best rows of the tenant, restricted to the allow-list when there is one;
        scores are negated distances. */
    method Search(tenant: Tenant, q: Vector, n: int, allowed: Option<seq<Id>>) returns (hits: seq<(Id, real)>)
      requires OracleHolds(file)
      ensures hits ==
        if !ready || n <= 0 || allowed == Some([]) then []
        else Similarities(Take(Ranked(Eligible(file, tenant, q, allowed)), n))
    {
      if !ready || n <= 0 || (allowed.Some? && allowed.value == []) {
        return [];
      }
      var rows: seq<Hit>;
      if allowed.Some? {
        rows := Listed(tenant, q, n, Elements(allowed.value));
      } else {
        rows := Nearest(tenant, q, n);
      }
      TakeTwice(Ranked(Eligible(file, tenant, q, allowed)), n);
      hits := Similarities(Take(rows, n));
    }

    /** Both statements of the allow-list branch: a lookup per id, or one walk of the table. */
    method Listed(tenant: Tenant, q: Vector, n: nat, ids: set<Id>) returns (rows: seq<Hit>)
      ensures rows == Take(Ranked(file.Scored(ids, tenant, q)), n)
    {
      if |ids| <= 256 {
        rows := Take(Ranked(file.Scored(ids, tenant, q)), n);
      } else {
        WalkIsLookup(file, ids, tenant, q);
        rows := Take(Ranked(WalkTable(file, ids, tenant, q)), n);
      }
    }

    /** The nearest-neighbour branch, falling back to the full scan on a tie at the cutoff. */
    method Nearest(tenant: Tenant, q: Vector, n: nat) returns (rows: seq<Hit>)
      requires n > 0 && OracleHolds(file)
      ensures Take(rows, n) == Take(Ranked(file.All(tenant, q)), n)
    {
      rows := [];
      ghost var all := file.All(tenant, q);
      if n < 4096 {
        assert SomeNearest(all, n + 1, file.nearest(tenant, q, n + 1));
        rows := Ranked(file.nearest(tenant, q, n + 1));
      }
      if n >= 4096 || (|rows| > n && rows[n - 1].distance == rows[n].distance) {
        rows := Take(Ranked(file.All(tenant, q)), n);
      } else {
        ExtraHitDecides(all, n, file.nearest(tenant, q, n + 1));
      }
    }
  }

  lemma TakeTwice<T>(s: seq<T>, n: nat)
    ensures Take(Take(s, n), n) == Take(s, n)
  {
  }

  function Eligible(file: VecFile, tenant: Tenant, q: Vector, allowed: Option<seq<Id>>): set<Hit> {
    if allowed.None? then file.All(tenant, q) else file.Scored(Elements(allowed.value), tenant, q)
  }

  /** The one-pass form of the allow-list query. */
  function WalkTable(file: VecFile, ids: set<Id>, tenant: Tenant, q: Vector): set<Hit> {
    set id | id in file.table && id in ids && file.table[id].tenant == tenant ::
      Hit(id, file.distance(file.table[id].vector, q))
  }

  lemma WalkIsLookup(file: VecFile, ids: set<Id>, tenant: Tenant, q: Vector)
    ensures WalkTable(file, ids, tenant, q) == file.Scored(ids, tenant, q)
  {
  }

  function Similarities(rows: seq<Hit>): seq<(Id, real)> {
    seq(|rows|, i requires 0 <= i < |rows| => (rows[i].id, -rows[i].distance))
  }

  /** An allow-list naming every row changes nothing, and rows outside the allow-list or of
      other tenants never matter. */
  lemma AllowListMeaning(file: VecFile, other: VecFile, tenant: Tenant, q: Vector, allowed: seq<Id>)
    ensures file.table.Keys <= Elements(allowed) ==>
      Eligible(file, tenant, q, Some(allowed)) == Eligible(file, tenant, q, None)
    ensures file.distance == other.distance && AgreeOn(file.table, other.table, Elements(allowed), tenant) ==>
      Eligible(file, tenant, q, Some(allowed)) == Eligible(other, tenant, q, Some(allowed))
  {
    if AgreeOn(file.table, other.table, Elements(allowed), tenant) && file.distance == other.distance {
      forall h ensures h in Eligible(file, tenant, q, Some(allowed)) <==> h in Eligible(other, tenant, q, Some(allowed)) {
        assert OfTenant(file.table, h.id, tenant) || !OfTenant(file.table, h.id, tenant);
      }
    }
  }

  predicate OfTenant(table: map<Id, Entry>, id: Id, tenant: Tenant) {
    id in table && table[id].tenant == tenant
  }

  ghost predicate AgreeOn(a: map<Id, Entry>, b: map<Id, Entry>, ids: set<Id>, tenant: Tenant) {
    forall id :: id in ids ==>
      && (OfTenant(a, id, tenant) <==> OfTenant(b, id, tenant))
      && (OfTenant(a, id, tenant) ==> a[id] == b[id])
  }

  // -- The in-memory index -------------------------------------------------------------------

  datatype Item = Item(id: Id, entry: Entry)

  /** The arithmetic of the matrix product and of its (unspecified, but deterministic) sort. */
  datatype Numeric = Numeric(dot: (Vector, Vector) -> real, argsort: seq<real> -> seq<nat>) {
    /** argsort returns a permutation that puts the largest similarity first. */
    ghost predicate Valid() {
      forall sims :: IsSortPermutation(sims, argsort(sims))
    }
  }

  ghost predicate IsSortPermutation(sims: seq<real>, order: seq<nat>) {
    && |order| == |sims| && Distinct(order) && (forall i :: 0 <= i < |order| ==> order[i] < |sims|)
    && forall i, j :: 0 <= i < j < |order| && order[i] < |sims| && order[j] < |sims| ==> sims[order[i]] >= sims[order[j]]
  }

  /** A slice end counted from the back when negative. */
  function Prefix<T>(s: seq<T>, n: int): seq<T> {
    if n >= 0 then Take(s, n) else if |s| + n >= 0 then s[..|s| + n] else []
  }

  /** Entries in insertion order; replacing an entry keeps its place. */
  function Put(items: seq<Item>, id: Id, e: Entry): seq<Item> {
    if items == [] then [Item(id, e)]
    else if items[0].id == id then [Item(id, e)] + items[1..]
    else [items[0]] + Put(items[1..], id, e)
  }

  function Without(items: seq<Item>, id: Id): seq<Item> {
    if items == [] then []
    else if items[0].id == id then items[1..]
    else [items[0]] + Without(items[1..], id)
  }

  /** No id has two entries. */
  ghost predicate Keyed(items: seq<Item>) {
    forall i, j :: 0 <= i < j < |items| ==> items[i].id != items[j].id
  }

  lemma {:induction false} PutKeepsKeys(items: seq<Item>, id: Id, e: Entry)
    requires Keyed(items)
    ensures Keyed(Put(items, id, e))
    ensures forall x :: x in Put(items, id, e) ==> x in items || x.id == id
  {
    if items != [] && items[0].id != id {
      PutKeepsKeys(items[1..], id, e);
      var rest := Put(items[1..], id, e);
      forall j | 0 <= j < |rest| ensures rest[j].id != items[0].id {
        assert rest[j] in rest;
        if rest[j] in items[1..] {
          var i :| 0 <= i < |items[1..]| && items[1..][i] == rest[j];
          assert items[i + 1] == rest[j];
        }
      }
    }
  }

  /** Storing an entry replaces the entry of its id and no other. */
  lemma {:induction false} PutStores(items: seq<Item>, id: Id, e: Entry)
    requires Keyed(items)
    ensures forall x :: x in Put(items, id, e) <==> x == Item(id, e) || (x in items && x.id != id)
  {
    if items != [] {
      assert items == [items[0]] + items[1..];
      if items[0].id == id {
        forall i | 0 <= i < |items[1..]| ensures items[1..][i].id != id { assert items[i + 1] == items[1..][i]; }
      } else {
        PutStores(items[1..], id, e);
      }
    }
  }

  lemma {:induction false} WithoutKeepsKeys(items: seq<Item>, id: Id)
    requires Keyed(items)
    ensures Keyed(Without(items, id))
    ensures forall x :: x in Without(items, id) <==> x in items && x.id != id
  {
    if items != [] && items[0].id != id {
      WithoutKeepsKeys(items[1..], id);
      assert items == [items[0]] + items[1..];
      var rest := Without(items[1..], id);
      forall j | 0 <= j < |rest| ensures rest[j].id != items[0].id {
        assert rest[j] in items[1..];
        var i :| 0 <= i < |items[1..]| && items[1..][i] == rest[j];
        assert items[i + 1] == rest[j];
      }
    } else if items != [] {
      assert items == [items[0]] + items[1..];
      forall i | 0 <= i < |items[1..]| ensures items[1..][i].id != id { assert items[i + 1] == items[1..][i]; }
    }
  }

  predicate Selects(item: Item, tenant: Tenant, allowed: Option<set<Id>>) {
    item.entry.tenant == tenant && (allowed.None? || item.id in allowed.value)
  }

  function Sims(num: Numeric, items: seq<Item>, q: Vector): seq<real> {
    seq(|items|, i requires 0 <= i < |items| => num.dot(items[i].entry.vector, q))
  }

  /** What a search answers: the selected entries in the order of their similarity. */
  ghost function Answer(num: Numeric, items: seq<Item>, tenant: Tenant, q: Vector, n: int, allowed: Option<set<Id>>)
    : seq<(Id, real)>
    requires num.Valid()
  {
    var chosen := Chosen(items, tenant, allowed);
    var sims := Sims(num, chosen, q);
    var order := Prefix(num.argsort(sims), n);
    assert IsSortPermutation(sims, num.argsort(sims));
    seq(|order|, i requires 0 <= i < |order| => (chosen[order[i]].id, sims[order[i]]))
  }

  class NumpyVectorIndex {
    var items: seq<Item>
    var dirty: bool
    var matrixIds: seq<Id>
    var matrixTenants: seq<Tenant>
    var matrix: Option<seq<Vector>>

    constructor ()
      ensures Valid() && items == []
    {
      items, dirty, matrixIds, matrixTenants, matrix := [], true, [], [], None;
    }

    /** A matrix that is not marked dirty mirrors the entries row by row. */
    ghost predicate Valid()
      reads this
    {
      Keyed(items) && (dirty || Mirrors())
    }

    ghost predicate Mirrors()
      reads this
    {
      && |matrixIds| == |matrixTenants| == |items|
      && (matrix.None? <==> items == []) && (matrix.Some? ==> |matrix.value| == |items|)
      && (forall i :: 0 <= i < |items| ==> matrixIds[i] == items[i].id)
      && (forall i :: 0 <= i < |items| ==> matrixTenants[i] == items[i].entry.tenant)
      && (matrix.Some? ==> forall i :: 0 <= i < |items| ==> matrix.value[i] == items[i].entry.vector)
    }

    method Add(id: Id, tenant: Tenant, vector: Option<Vector>)
      requires Valid()
      modifies this
      ensures Valid()
      ensures items == if vector.None? then old(items) else Put(old(items), id, Entry(tenant, vector.value))
      ensures dirty == (old(dirty) || vector.Some?)
    {
      if vector.Some? {
        PutKeepsKeys(items, id, Entry(tenant, vector.value));
        items := Put(items, id, Entry(tenant, vector.value));
        dirty := true;
      }
    }

    method Remove(id: Id)
      requires Valid()
      modifies this
      ensures Valid() && items == Without(old(items), id)
      ensures dirty == (old(dirty) || items != old(items))
    {
      var rest := Without(items, id);
      WithoutChanges(items, id);
      WithoutKeepsKeys(items, id);
      if rest != items {
        items := rest;
        dirty := true;
      }
    }

    method RefreshMatrix()
      requires Valid()
      modifies this`dirty, this`matrixIds, this`matrixTenants, this`matrix
      ensures !dirty && Mirrors()
    {
      if !dirty {
        return;
      }
      matrixIds := seq(|items|, i requires 0 <= i < |items| reads this => items[i].id);
      matrixTenants := seq(|items|, i requires 0 <= i < |items| reads this => items[i].entry.tenant);
      matrix := if items == [] then None
                else Some(seq(|items|, i requires 0 <= i < |items| reads this => items[i].entry.vector));
      dirty := false;
    }

    /** Searching the cached matrix answers what the current entries say. */
    method Search(num: Numeric, tenant: Tenant, q: Vector, n: int, allowed: Option<set<Id>>)
      returns (hits: seq<(Id, real)>)
      requires Valid() && num.Valid()
      modifies this`dirty, this`matrixIds, this`matrixTenants, this`matrix
      ensures Valid() && hits == Answer(num, items, tenant, q, n, allowed)
    {
      RefreshMatrix();
      var ids, sims := Select(num, tenant, q, allowed);
      assert IsSortPermutation(sims, num.argsort(sims));
      var order := Prefix(num.argsort(sims), n);
      hits := seq(|order|, i requires 0 <= i < |order| => (ids[order[i]], sims[order[i]]));
    }

    /** The ids and similarities of the selected matrix rows. */
    method Select(num: Numeric, tenant: Tenant, q: Vector, allowed: Option<set<Id>>)
      returns (ids: seq<Id>, sims: seq<real>)
      requires Mirrors()
      ensures var chosen := Chosen(items, tenant, allowed);
        sims == Sims(num, chosen, q) && |ids| == |chosen| && forall k :: 0 <= k < |ids| ==> ids[k] == chosen[k].id
    {
      ids, sims := [], [];
      for i := 0 to |matrixIds|
        invariant var chosen := Chosen(items[..i], tenant, allowed);
          sims == Sims(num, chosen, q) && |ids| == |chosen| && forall k :: 0 <= k < |ids| ==> ids[k] == chosen[k].id
      {
        ChosenNext(items, i, tenant, allowed);
        if matrixTenants[i] == tenant && (allowed.None? || matrixIds[i] in allowed.value) {
          ids := ids + [matrixIds[i]];
          sims := sims + [num.dot(matrix.value[i], q)];
        }
      }
      assert items[..|items|] == items;
    }
  }

  function Chosen(items: seq<Item>, tenant: Tenant, allowed: Option<set<Id>>): seq<Item> {
    Filter(items, (x: Item) => Selects(x, tenant, allowed))
  }

  lemma ChosenNext(items: seq<Item>, i: nat, tenant: Tenant, allowed: Option<set<Id>>)
    requires i < |items|
    ensures Chosen(items[..i + 1], tenant, allowed) ==
      Chosen(items[..i], tenant, allowed) + if Selects(items[i], tenant, allowed) then [items[i]] else []
  {
    assert items[..i + 1] == items[..i] + [items[i]];
    FilterAppend(items[..i], [items[i]], (x: Item) => Selects(x, tenant, allowed));
  }

  lemma {:induction false} WithoutChanges(items: seq<Item>, id: Id)
    ensures Without(items, id) == items <==> forall x :: x in items ==> x.id != id
  {
    if items != [] {
      var rest := items[1..];
      assert items == [items[0]] + rest;
      WithoutChanges(rest, id);
      if items[0].id == id {
        assert |Without(items, id)| < |items|;
      } else {
        assert Without(items, id)[1..] == Without(rest, id);
        assert forall x :: x in items <==> x == items[0] || x in rest;
      }
    }
  }
}
