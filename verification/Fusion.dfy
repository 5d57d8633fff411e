/** Rank fusion, reranking and the collapse of duplicate mirror families. */
module Fusion {
  import opened Common
  import opened VectorSearch

  // -- Stable sorting --------------------------------------------------------------------------

  function Insert<A>(s: seq<A>, x: A, before: (A, A) -> bool): seq<A> {
    if s == [] || !before(x, s[|s| - 1]) then s + [x]
    else Insert(s[..|s| - 1], x, before) + [s[|s| - 1]]
  }

  /** Ascending by `before`; elements that tie keep their order. */
  function StableSort<A>(s: seq<A>, before: (A, A) -> bool): seq<A> {
    if s == [] then [] else Insert(StableSort(s[..|s| - 1], before), s[|s| - 1], before)
  }

  lemma {:induction false} InsertKeepsAll<A>(s: seq<A>, x: A, before: (A, A) -> bool)
    ensures multiset(Insert(s, x, before)) == multiset(s) + multiset{x}
  {
    if s != [] && before(x, s[|s| - 1]) {
      InsertKeepsAll(s[..|s| - 1], x, before);
      assert s == s[..|s| - 1] + [s[|s| - 1]];
    }
  }

  lemma {:induction false} SortKeepsAll<A>(s: seq<A>, before: (A, A) -> bool)
    ensures multiset(StableSort(s, before)) == multiset(s)
    ensures |StableSort(s, before)| == |s|
  {
    if s != [] {
      SortKeepsAll(s[..|s| - 1], before);
      InsertKeepsAll(StableSort(s[..|s| - 1], before), s[|s| - 1], before);
      assert s == s[..|s| - 1] + [s[|s| - 1]];
    }
    assert |multiset(StableSort(s, before))| == |multiset(s)|;
  }

  ghost predicate WeakOrder<A(!new)>(before: (A, A) -> bool) {
    && (forall x, y :: before(x, y) ==> !before(y, x))
    && (forall x, y, z :: !before(x, y) && !before(y, z) ==> !before(x, z))
  }

  ghost predicate InOrder<A>(s: seq<A>, before: (A, A) -> bool) {
    forall i, j :: 0 <= i < j < |s| ==> !before(s[j], s[i])
  }

  lemma {:induction false} InsertInOrder<A(!new)>(s: seq<A>, x: A, before: (A, A) -> bool)
    requires WeakOrder(before) && InOrder(s, before)
    ensures InOrder(Insert(s, x, before), before)
  {
    if s != [] && before(x, s[|s| - 1]) {
      var init, last := s[..|s| - 1], s[|s| - 1];
      InsertInOrder(init, x, before);
      InsertKeepsAll(init, x, before);
      var r := Insert(init, x, before);
      forall i | 0 <= i < |r| ensures !before(last, r[i]) {
        assert r[i] in multiset(r);
        assert r[i] == x || r[i] in init;
      }
    }
  }

  lemma {:induction false} SortSorts<A(!new)>(s: seq<A>, before: (A, A) -> bool)
    requires WeakOrder(before)
    ensures InOrder(StableSort(s, before), before)
  {
    if s != [] {
      SortSorts(s[..|s| - 1], before);
      InsertInOrder(StableSort(s[..|s| - 1], before), s[|s| - 1], before);
    }
  }

  /** The first occurrence of every element. */
  function Dedupe<A(==)>(s: seq<A>): seq<A> {
    if s == [] then []
    else
      var before := Dedupe(s[..|s| - 1]);
      if s[|s| - 1] in before then before else before + [s[|s| - 1]]
  }

  lemma {:induction false} DedupeKeepsMembers<A(!new)>(s: seq<A>)
    ensures Distinct(Dedupe(s)) && forall x :: x in Dedupe(s) <==> x in s
  {
    if s != [] {
      DedupeKeepsMembers(s[..|s| - 1]);
      assert s == s[..|s| - 1] + [s[|s| - 1]];
    }
  }

  // -- Reciprocal rank fusion ------------------------------------------------------------------

  const RRF_K := 60

  function Reciprocal(rank: nat): real {
    1.0 / (RRF_K + rank + 1) as real
  }

  /** What one list adds to an id: 1 / (k + rank + 1) for each place it holds. */
  function ListShare(list: seq<Id>, id: Id): real {
    if list == [] then 0.0
    else ListShare(list[..|list| - 1], id) + if list[|list| - 1] == id then Reciprocal(|list| - 1) else 0.0
  }

  function Fused(a: seq<Id>, b: seq<Id>, id: Id): real {
    ListShare(a, id) + ListShare(b, id)
  }

  /** In a list without repetition the share is that of the one rank. */
  lemma {:induction false} ShareOfRank(list: seq<Id>, rank: nat)
    requires Distinct(list) && rank < |list|
    ensures ListShare(list, list[rank]) == Reciprocal(rank)
  {
    if rank == |list| - 1 {
      NoShare(list[..rank], list[rank]);
    } else {
      ShareOfRank(list[..|list| - 1], rank);
    }
  }

  lemma {:induction false} NoShare(list: seq<Id>, id: Id)
    requires id !in list
    ensures ListShare(list, id) == 0.0
  {
    if list != [] { NoShare(list[..|list| - 1], id); }
  }

  function Or0(scores: map<Id, real>, id: Id): real {
    if id in scores then scores[id] else 0.0
  }

  /** The order of the ids once `list` has been added to `scores`. */
  ghost predicate AddedIds(order: seq<Id>, scores: map<Id, real>, list: seq<Id>, more: seq<Id>, sums: map<Id, real>) {
    more == Dedupe(order + list) && Elements(more) == sums.Keys && sums.Keys == scores.Keys + Elements(list)
  }

  ghost predicate AddedSums(scores: map<Id, real>, list: seq<Id>, sums: map<Id, real>) {
    forall id :: Or0(sums, id) == Or0(scores, id) + ListShare(list, id)
  }

  function Bump(sums: map<Id, real>, id: Id, rank: nat): map<Id, real> {
    sums[id := Or0(sums, id) + Reciprocal(rank)]
  }

  function WithId(more: seq<Id>, sums: map<Id, real>, id: Id): seq<Id> {
    if id in sums then more else more + [id]
  }

  lemma AddedIdsNext(
    order: seq<Id>, scores: map<Id, real>, list: seq<Id>, more: seq<Id>, sums: map<Id, real>, id: Id)
    requires AddedIds(order, scores, list, more, sums)
    ensures AddedIds(
      order, scores, list + [id], WithId(more, sums, id), Bump(sums, id, |list|))
  {
    assert order + (list + [id]) == (order + list) + [id];
    DedupeAppend(order + list, id);
    ElementsOfAppend(more, [id]);
    ElementsOfAppend(list, [id]);
    assert id in more <==> id in Elements(more);
  }

  lemma DedupeAppend<A>(s: seq<A>, x: A)
    ensures Dedupe(s + [x]) == if x in Dedupe(s) then Dedupe(s) else Dedupe(s) + [x]
  {
    assert (s + [x])[..|s|] == s;
  }

  lemma AddedSumsNext(scores: map<Id, real>, list: seq<Id>, sums: map<Id, real>, id: Id)
    requires AddedSums(scores, list, sums)
    ensures AddedSums(scores, list + [id], Bump(sums, id, |list|))
  {
    assert (list + [id])[..|list|] == list;
  }

  /** The state of the loop before place `rank` of the list. */
  ghost predicate AddedUpTo(
    order: seq<Id>, scores: map<Id, real>, list: seq<Id>, rank: nat, more: seq<Id>, sums: map<Id, real>)
  {
    rank <= |list| && AddedIds(order, scores, list[..rank], more, sums) && AddedSums(scores, list[..rank], sums)
  }

  lemma AddedStart(order: seq<Id>, scores: map<Id, real>, list: seq<Id>)
    requires order == Dedupe(order) && Elements(order) == scores.Keys
    ensures AddedUpTo(order, scores, list, 0, order, scores)
  {
    assert order + list[..0] == order;
  }

  lemma AddedStep(order: seq<Id>, scores: map<Id, real>, list: seq<Id>, rank: nat, more: seq<Id>, sums: map<Id, real>)
    requires AddedUpTo(order, scores, list, rank, more, sums) && rank < |list|
    ensures AddedUpTo(
      order, scores, list, rank + 1, WithId(more, sums, list[rank]), Bump(sums, list[rank], rank))
  {
    AddedIdsNext(order, scores, list[..rank], more, sums, list[rank]);
    AddedSumsNext(scores, list[..rank], sums, list[rank]);
    assert list[..rank + 1] == list[..rank] + [list[rank]];
  }

  lemma AddedEnd(order: seq<Id>, scores: map<Id, real>, list: seq<Id>, more: seq<Id>, sums: map<Id, real>)
    requires AddedUpTo(order, scores, list, |list|, more, sums)
    ensures AddedIds(order, scores, list, more, sums) && AddedSums(scores, list, sums)
  {
    assert list[..|list|] == list;
  }

  method AddList(order: seq<Id>, scores: map<Id, real>, list: seq<Id>) returns (more: seq<Id>, sums: map<Id, real>)
    requires order == Dedupe(order) && Elements(order) == scores.Keys
    ensures AddedIds(order, scores, list, more, sums) && AddedSums(scores, list, sums)
  {
    more, sums := order, scores;
    AddedStart(order, scores, list);
    for rank := 0 to |list|
      invariant AddedUpTo(order, scores, list, rank, more, sums)
    {
      var id := list[rank];
      AddedStep(order, scores, list, rank, more, sums);
      more := WithId(more, sums, id);
      sums := Bump(sums, id, rank);
    }
    AddedEnd(order, scores, list, more, sums);
  }

  /** Ids in the order they first appear, each with its fused score. */
  method Rrf(a: seq<Id>, b: seq<Id>) returns (order: seq<Id>, scores: map<Id, real>)
    ensures order == Dedupe(a + b)
    ensures scores.Keys == Elements(order) && forall id :: Or0(scores, id) == Fused(a, b, id)
  {
    order, scores := AddList([], map[], a);
    assert [] + a == a;
    DedupeTwice(a, b);
    ghost var first := scores;
    assert forall id :: Or0(first, id) == ListShare(a, id);
    order, scores := AddList(order, scores, b);
  }

  lemma {:induction false} DedupeDistinct<A(!new)>(s: seq<A>)
    requires Distinct(s)
    ensures Dedupe(s) == s
  {
    if s != [] {
      DedupeDistinct(s[..|s| - 1]);
      assert s == s[..|s| - 1] + [s[|s| - 1]];
    }
  }

  lemma {:induction false} DedupeTwice<A(!new)>(a: seq<A>, b: seq<A>)
    ensures Dedupe(Dedupe(a)) == Dedupe(a)
    ensures Dedupe(Dedupe(a) + b) == Dedupe(a + b)
    decreases |a| + |b|
  {
    if b != [] {
      var init, last := b[..|b| - 1], b[|b| - 1];
      DedupeTwice(a, init);
      assert (a + b)[..|a + b| - 1] == a + init;
      assert (Dedupe(a) + b)[..|Dedupe(a) + b| - 1] == Dedupe(a) + init;
    } else {
      assert a + b == a && Dedupe(a) + b == Dedupe(a);
      DedupeKeepsMembers(a);
      DedupeDistinct(Dedupe(a));
    }
  }

  // -- Collapsing duplicate families -------------------------------------------------------------

  type Families = map<Id, string>

  predicate SameFamily(fam: Families, a: Id, b: Id) {
    a in fam && b in fam && fam[a] == fam[b]
  }

  /** The ids of a ranking with no better ranked member of their family. */
  function Firsts(order: seq<Id>, fam: Families): seq<Id> {
    if order == [] then []
    else
      var before, x := order[..|order| - 1], order[|order| - 1];
      if exists y :: y in before && SameFamily(fam, x, y) then Firsts(before, fam) else Firsts(before, fam) + [x]
  }

  /** The other members of an id's family, in order. */
  function Losers(order: seq<Id>, fam: Families, id: Id): seq<Id> {
    if order == [] then []
    else
      var x := order[|order| - 1];
      Losers(order[..|order| - 1], fam, id) + if x != id && SameFamily(fam, x, id) then [x] else []
  }

  /** How many ids the loop looks at: it stops once `k` are kept, and never if `k` is not positive. */
  function Cutoff(order: seq<Id>, fam: Families, k: int, i: nat): nat
    requires i <= |order|
    ensures Cutoff(order, fam, k, i) <= |order|
    decreases |order| - i
  {
    if i == |order| || (i > 0 && |Firsts(order[..i], fam)| == k) then i else Cutoff(order, fam, k, i + 1)
  }

  datatype Base = Base(score: real, dense: real, bm25: real, rrf: real)

  datatype Collapse = Collapse(key: string, kept: Id, collapsed: seq<Id>)

  datatype Ranked = Ranked(id: Id, base: Base, finalRank: nat, collapse: Option<Collapse>)

  /** The entry of the p-th kept id once `order` has been looked at. */
  function Entry(order: seq<Id>, fam: Families, base: Id -> Base, p: nat): Ranked
    requires p < |Firsts(order, fam)|
  {
    var id := Firsts(order, fam)[p];
    var losers := Losers(order, fam, id);
    Ranked(id, base(id), p, if losers == [] || id !in fam then None else Some(Collapse(fam[id], id, losers)))
  }

  function Listing(order: seq<Id>, fam: Families, base: Id -> Base): seq<Ranked> {
    seq(|Firsts(order, fam)|, p requires 0 <= p < |Firsts(order, fam)| => Entry(order, fam, base, p))
  }

  function CollapsedRanking(order: seq<Id>, fam: Families, k: int, base: Id -> Base): seq<Ranked> {
    Listing(order[..Cutoff(order, fam, k, 0)], fam, base)
  }

  /** What is kept: every id looked at, or a better ranked member of its family; no two of a
      family; each in the place of its rank. */
  lemma {:induction false} FirstsMeaning(order: seq<Id>, fam: Families)
    ensures var kept := Firsts(order, fam);
      && (forall x :: x in kept ==> x in order)
      && (forall x :: x in order && x !in kept ==> exists y :: y in kept && SameFamily(fam, x, y))
      && (forall i, j :: 0 <= i < j < |kept| ==> !SameFamily(fam, kept[i], kept[j]))
      && |kept| <= |order|
  {
    if order != [] {
      var before, x := order[..|order| - 1], order[|order| - 1];
      FirstsMeaning(before, fam);
      assert order == before + [x];
      var earlier := Firsts(before, fam);
      if !(exists y :: y in before && SameFamily(fam, x, y)) {
        forall i | 0 <= i < |earlier| ensures !SameFamily(fam, earlier[i], x) {
          assert earlier[i] in before && !SameFamily(fam, x, earlier[i]);
        }
      }
    }
  }

  lemma {:induction false} LosersMeaning(order: seq<Id>, fam: Families, id: Id)
    ensures forall x :: x in Losers(order, fam, id) <==> x in order && x != id && SameFamily(fam, x, id)
  {
    if order != [] {
      LosersMeaning(order[..|order| - 1], fam, id);
      assert order == order[..|order| - 1] + [order[|order| - 1]];
    }
  }

  /** The families already represented, each with the place of its kept id. */
  ghost predicate SeenOk(order: seq<Id>, fam: Families, seen: map<string, nat>) {
    var kept := Firsts(order, fam);
    && (forall f :: f in seen ==> seen[f] < |kept| && kept[seen[f]] in fam && fam[kept[seen[f]]] == f)
    && (forall x :: x in order && x in fam ==> fam[x] in seen)
  }

  lemma HeadIsIn<T>(s: seq<T>)
    ensures s != [] ==> s[0] in s
  {
  }

  /** A new family: nothing already listed changes, and nothing is noted on the new entry yet. */
  lemma NewFamily(order: seq<Id>, fam: Families, x: Id)
    requires x !in order && forall y :: y in order ==> !SameFamily(fam, x, y)
    ensures Firsts(order + [x], fam) == Firsts(order, fam) + [x]
    ensures Losers(order + [x], fam, x) == []
    ensures forall y :: y in order ==> Losers(order + [x], fam, y) == Losers(order, fam, y)
  {
    assert (order + [x])[..|order|] == order;
    LosersMeaning(order + [x], fam, x);
    HeadIsIn(Losers(order + [x], fam, x));
    forall y | y in order ensures Losers(order + [x], fam, y) == Losers(order, fam, y) {
      assert !SameFamily(fam, x, y);
    }
  }

  lemma KeepNext(order: seq<Id>, fam: Families, base: Id -> Base, seen: map<string, nat>, x: Id)
    requires SeenOk(order, fam, seen) && x !in order && (x in fam ==> fam[x] !in seen)
    ensures Listing(order + [x], fam, base) == Listing(order, fam, base) + [Ranked(x, base(x), |Firsts(order, fam)|, None)]
    ensures SeenOk(order + [x], fam, if x in fam then seen[fam[x] := |Firsts(order, fam)|] else seen)
  {
    assert forall y :: y in order ==> !SameFamily(fam, x, y);
    KeepListing(order, fam, base, x);
    NewFamily(order, fam, x);
    KeepSeen(order, fam, seen, x);
  }

  lemma KeepSeen(order: seq<Id>, fam: Families, seen: map<string, nat>, x: Id)
    requires SeenOk(order, fam, seen) && (x in fam ==> fam[x] !in seen)
    requires Firsts(order + [x], fam) == Firsts(order, fam) + [x]
    ensures SeenOk(order + [x], fam, if x in fam then seen[fam[x] := |Firsts(order, fam)|] else seen)
  {
  }

  lemma KeepListing(order: seq<Id>, fam: Families, base: Id -> Base, x: Id)
    requires x !in order && forall y :: y in order ==> !SameFamily(fam, x, y)
    ensures Listing(order + [x], fam, base) == Listing(order, fam, base) + [Ranked(x, base(x), |Firsts(order, fam)|, None)]
  {
    FirstsMeaning(order, fam);
    NewFamily(order, fam, x);
    var n := |Firsts(order, fam)|;
    forall p | 0 <= p < n ensures Entry(order + [x], fam, base, p) == Entry(order, fam, base, p) {
      SameEntryLater(order, fam, base, x, p);
    }
    ListingGrows(order, fam, base, x);
  }

  lemma SameEntryLater(order: seq<Id>, fam: Families, base: Id -> Base, x: Id, p: nat)
    requires p < |Firsts(order, fam)| && Firsts(order, fam) <= Firsts(order + [x], fam)
    requires Losers(order + [x], fam, Firsts(order, fam)[p]) == Losers(order, fam, Firsts(order, fam)[p])
    ensures Entry(order + [x], fam, base, p) == Entry(order, fam, base, p)
  {
  }

  lemma ListingGrows(order: seq<Id>, fam: Families, base: Id -> Base, x: Id)
    requires Firsts(order + [x], fam) == Firsts(order, fam) + [x] && Losers(order + [x], fam, x) == []
    requires forall p :: 0 <= p < |Firsts(order, fam)| ==> Entry(order + [x], fam, base, p) == Entry(order, fam, base, p)
    ensures Listing(order + [x], fam, base) == Listing(order, fam, base) + [Ranked(x, base(x), |Firsts(order, fam)|, None)]
  {
    assert Entry(order + [x], fam, base, |Firsts(order, fam)|) == Ranked(x, base(x), |Firsts(order, fam)|, None);
  }

  lemma CollapseNext(order: seq<Id>, fam: Families, base: Id -> Base, seen: map<string, nat>, x: Id)
    requires SeenOk(order, fam, seen) && x !in order && x in fam && fam[x] in seen
    ensures Firsts(order + [x], fam) == Firsts(order, fam) && SeenOk(order + [x], fam, seen)
    ensures var p := seen[fam[x]];
      var old' := Listing(order, fam, base);
      var collapsed := if old'[p].collapse.Some? then old'[p].collapse.value.collapsed else [];
      Listing(order + [x], fam, base) ==
        old'[p := old'[p].(collapse := Some(Collapse(fam[x], old'[p].id, collapsed + [x])))]
  {
    FirstsMeaning(order, fam);
    var kept, p := Firsts(order, fam), seen[fam[x]];
    assert kept[p] in kept && SameFamily(fam, x, kept[p]);
    KnownFamily(order, fam, kept[p], x);
    forall q | 0 <= q < |kept| && q != p ensures Entry(order + [x], fam, base, q) == Entry(order, fam, base, q) {
      assert !SameFamily(fam, kept[p], kept[q]) && !SameFamily(fam, kept[q], kept[p]);
      assert !SameFamily(fam, x, kept[q]);
    }
    assert Entry(order + [x], fam, base, p).collapse ==
      Some(Collapse(fam[x], kept[p], Losers(order, fam, kept[p]) + [x]));
  }

  /** A known family: the kept ids stay, and only its own kept id gains a loser. */
  lemma KnownFamily(order: seq<Id>, fam: Families, first: Id, x: Id)
    requires x !in order && first in order && SameFamily(fam, x, first)
    ensures Firsts(order + [x], fam) == Firsts(order, fam)
    ensures Losers(order + [x], fam, first) == Losers(order, fam, first) + [x]
    ensures forall y :: !SameFamily(fam, x, y) ==> Losers(order + [x], fam, y) == Losers(order, fam, y)
  {
    assert (order + [x])[..|order|] == order;
  }

  /** The ranking loop: the first of a family is kept, a later one is noted on its entry. */
  method RankAndCollapse(order: seq<Id>, fam: Families, k: int, base: Id -> Base) returns (ranked: seq<Ranked>)
    requires Distinct(order)
    ensures ranked == CollapsedRanking(order, fam, k, base)
  {
    ranked := [];
    var seen: map<string, nat> := map[];
    for i := 0 to |order|
      invariant ranked == Listing(order[..i], fam, base) && SeenOk(order[..i], fam, seen)
      invariant Cutoff(order, fam, k, 0) == Cutoff(order, fam, k, i)
      invariant i > 0 ==> |ranked| != k
    {
      var kept;
      ranked, seen, kept := Place(order[..i], order[i], fam, base, ranked, seen);
      assert order[..i + 1] == order[..i] + [order[i]];
      if kept && |ranked| == k {
        break;
      }
    }
    assert order[..|order|] == order;
  }

  /** One turn of the loop. */
  method Place(
    order: seq<Id>, x: Id, fam: Families, base: Id -> Base, ranked: seq<Ranked>, seen: map<string, nat>)
    returns (more: seq<Ranked>, nowSeen: map<string, nat>, kept: bool)
    requires ranked == Listing(order, fam, base) && SeenOk(order, fam, seen) && x !in order
    ensures more == Listing(order + [x], fam, base) && SeenOk(order + [x], fam, nowSeen)
    ensures |more| == |ranked| + if kept then 1 else 0
  {
    more, nowSeen, kept := ranked, seen, !(x in fam && fam[x] in seen);
    if !kept {
      CollapseNext(order, fam, base, seen, x);
      var p := seen[fam[x]];
      var collapsed := if ranked[p].collapse.Some? then ranked[p].collapse.value.collapsed else [];
      more := ranked[p := ranked[p].(collapse := Some(Collapse(fam[x], ranked[p].id, collapsed + [x])))];
    } else {
      KeepNext(order, fam, base, seen, x);
      if x in fam {
        nowSeen := seen[fam[x] := |ranked|];
      }
      more := ranked + [Ranked(x, base(x), |ranked|, None)];
    }
  }

  lemma {:induction false} CutoffMeaning(order: seq<Id>, fam: Families, k: int, i: nat)
    requires i <= |order| && (i > 0 && k > 0 ==> |Firsts(order[..i], fam)| <= k)
    ensures var n := Cutoff(order, fam, k, i);
      && (k > 0 ==> |Firsts(order[..n], fam)| <= k)
      && (n == |order| || |Firsts(order[..n], fam)| == k)
    decreases |order| - i
  {
    if i < |order| && !(i > 0 && |Firsts(order[..i], fam)| == k) {
      assert order[..i + 1][..i] == order[..i];
      CutoffMeaning(order, fam, k, i + 1);
    }
  }

  predicate NotedUnder(ranked: seq<Ranked>, x: Id) {
    exists p :: 0 <= p < |ranked| && ranked[p].collapse.Some? && x in ranked[p].collapse.value.collapsed
  }

  /** What every ranking satisfies: at most `k` entries, in their own places, no two of one
      family; and if fewer than `k` came out, every id is ranked or noted on the entry of a
      better ranked member of its family. */
  lemma RankingMeaning(order: seq<Id>, fam: Families, k: int, base: Id -> Base)
    ensures var ranked := CollapsedRanking(order, fam, k, base);
      && (k > 0 ==> |ranked| <= k)
      && (forall p :: 0 <= p < |ranked| ==>
            ranked[p].finalRank == p && ranked[p].id in order && ranked[p].base == base(ranked[p].id))
      && (forall p, q :: 0 <= p < q < |ranked| ==> !SameFamily(fam, ranked[p].id, ranked[q].id))
      && (|ranked| != k ==> forall x :: x in order ==>
            (exists p :: 0 <= p < |ranked| && ranked[p].id == x) || NotedUnder(ranked, x))
  {
    var n := Cutoff(order, fam, k, 0);
    CutoffMeaning(order, fam, k, 0);
    FirstsMeaning(order[..n], fam);
    var kept, ranked := Firsts(order[..n], fam), CollapsedRanking(order, fam, k, base);
    forall p | 0 <= p < |ranked| ensures ranked[p].id in order { assert kept[p] in kept; }
    if |ranked| != k {
      assert order[..n] == order;
      forall x | x in order ensures (exists p :: 0 <= p < |ranked| && ranked[p].id == x) || NotedUnder(ranked, x) {
        RankedOrNoted(order, fam, base, x);
      }
    }
  }

  lemma RankedOrNoted(order: seq<Id>, fam: Families, base: Id -> Base, x: Id)
    requires x in order
    ensures var ranked := Listing(order, fam, base);
      (exists p :: 0 <= p < |ranked| && ranked[p].id == x) || NotedUnder(ranked, x)
  {
    FirstsMeaning(order, fam);
    var kept, ranked := Firsts(order, fam), Listing(order, fam, base);
    if x in kept {
      var p :| 0 <= p < |kept| && kept[p] == x;
      assert ranked[p].id == x;
    } else {
      var y :| y in kept && SameFamily(fam, x, y);
      var p :| 0 <= p < |kept| && kept[p] == y;
      LosersMeaning(order, fam, y);
      assert ranked[p] == Entry(order, fam, base, p) && x in Losers(order, fam, y);
      assert x in ranked[p].collapse.value.collapsed;
    }
  }

  // -- Fusing and reranking --------------------------------------------------------------------

  datatype Candidate = Candidate(id: Id, text: string, labels: string)

  /** What a candidate-aware reranker returns; None stands for a score that is not finite. */
  datatype Scored = Scored(scores: seq<Option<real>>, scaleKnown: bool)

  /** A legacy reranker sees texts only. `argsort` puts the largest score first. */
  datatype Reranker =
    | Legacy(score: (string, seq<string>) -> seq<real>)
    | CandidateAware(run: (string, seq<Candidate>, string) -> Scored)
  {
    ghost predicate Valid() {
      Legacy? ==> forall q, texts :: |score(q, texts)| == |texts|
    }

    /** The scores of a batch, or None when the result is refused. */
    function Scores(query: string, batch: seq<Candidate>, context: string): Option<seq<real>> {
      match this
      case Legacy(score) => Some(score(query, seq(|batch|, i requires 0 <= i < |batch| => batch[i].text)))
      case CandidateAware(run) =>
        var result := run(query, batch, context);
        if result.scaleKnown && |result.scores| == |batch| && (forall i :: 0 <= i < |batch| ==> result.scores[i].Some?)
        then Some(seq(|batch|, i requires 0 <= i < |batch| => result.scores[i].value))
        else None
    }
  }

  /** A legacy reranker sees the texts and is taken at its word. */
  lemma LegacyScores(reranker: Reranker, query: string, batch: seq<Candidate>, context: string)
    requires reranker.Legacy?
    ensures reranker.Scores(query, batch, context) == Some(reranker.score(query, TextsOf(batch)))
  {
    assert seq(|batch|, i requires 0 <= i < |batch| => batch[i].text) == TextsOf(batch);
  }

  /** A candidate-aware one is refused exactly when its scale is unknown, its scores do not match
      the batch, or one of them is not finite. */
  lemma RefusedIff(reranker: Reranker, query: string, batch: seq<Candidate>, context: string)
    requires reranker.CandidateAware?
    ensures var result, scores := reranker.run(query, batch, context), reranker.Scores(query, batch, context);
      && (scores.None? <==> !result.scaleKnown || |result.scores| != |batch| || None in result.scores)
      && (scores.Some? ==> |scores.value| == |batch| && forall i :: 0 <= i < |batch| ==> result.scores[i] == Some(scores.value[i]))
  {
  }

  /** The texts of a batch, in order. */
  function TextsOf(batch: seq<Candidate>): (texts: seq<string>)
    ensures |texts| == |batch| && forall i :: 0 <= i < |batch| ==> texts[i] == batch[i].text
  {
    if batch == [] then [] else TextsOf(batch[..|batch| - 1]) + [batch[|batch| - 1].text]
  }

  datatype Fuser = Fuser(reranker: Reranker, argsort: seq<real> -> seq<nat>, round: real -> real) {
    ghost predicate Valid() {
      reranker.Valid() && forall sims :: IsSortPermutation(sims, argsort(sims))
    }
  }

  /** Families and precedence, when any candidate belongs to one. */
  datatype Mirrors = NoMirrors | Mirrors(fam: Families, precedence: map<Id, nat>)

  function FamiliesOf(m: Mirrors): Families {
    if m.NoMirrors? then map[] else m.fam
  }

  function Precedence(m: Mirrors, id: Id): nat {
    if m.Mirrors? && id in m.precedence then m.precedence[id] else 2
  }

  /** A higher score first; with families, ties by precedence and then by id. */
  predicate Better(scores: map<Id, real>, m: Mirrors, a: Id, b: Id) {
    || Or0(scores, a) > Or0(scores, b)
    || (Or0(scores, a) == Or0(scores, b)
        && (Precedence(m, a) < Precedence(m, b) || (Precedence(m, a) == Precedence(m, b) && IdBefore(a, b))))
  }

  function IdsOf(candidates: seq<Candidate>): seq<Id> {
    seq(|candidates|, i requires 0 <= i < |candidates| => candidates[i].id)
  }

  function TextOf(candidates: seq<Candidate>, id: Id): Candidate {
    if candidates == [] then Candidate(id, "", "")
    else if candidates[|candidates| - 1].id == id then candidates[|candidates| - 1]
    else TextOf(candidates[..|candidates| - 1], id)
  }

  /** Ids without a dense score come last. */
  predicate DenserThan(dense: map<Id, real>, a: Id, b: Id) {
    a in dense && (b !in dense || dense[a] > dense[b])
  }

  function Shortlist(ids: seq<Id>, dense: map<Id, real>, lexical: map<Id, real>, topc: int): seq<Id> {
    var a, b := DenseTop(ids, dense, topc), LexicalTop(ids, lexical, topc);
    Prefix(StableSort(Dedupe(a + b), (x: Id, y: Id) => Fused(a, b, x) > Fused(a, b, y)), topc)
  }

  function DenseTop(ids: seq<Id>, dense: map<Id, real>, topc: int): seq<Id> {
    Prefix(StableSort(ids, (x: Id, y: Id) => DenserThan(dense, x, y)), topc)
  }

  function LexicalTop(ids: seq<Id>, lexical: map<Id, real>, topc: int): seq<Id> {
    Prefix(StableSort(ids, (x: Id, y: Id) => Or0(lexical, x) > Or0(lexical, y)), topc)
  }

  function ScoreMap(ids: seq<Id>, scores: seq<real>): map<Id, real>
    requires |ids| == |scores|
  {
    if ids == [] then map[]
    else ScoreMap(ids[..|ids| - 1], scores[..|ids| - 1])[ids[|ids| - 1] := scores[|ids| - 1]]
  }

  function Arranged(fuser: Fuser, short: seq<Id>, scores: seq<real>, m: Mirrors): seq<Id>
    requires |short| == |scores|
    requires IsSortPermutation(scores, fuser.argsort(scores))
  {
    if m.NoMirrors? then
      var order := fuser.argsort(scores);
      seq(|order|, i requires 0 <= i < |order| => short[order[i]])
    else StableSort(short, (x: Id, y: Id) => Better(ScoreMap(short, scores), m, x, y))
  }

  ghost function FusedRanking(
    fuser: Fuser, query: string, candidates: seq<Candidate>, dense: map<Id, real>, lexical: map<Id, real>,
    k: int, topc: int, m: Mirrors, context: string): Option<seq<Ranked>>
    requires fuser.Valid()
  {
    if candidates == [] then Some([])
    else
      var ids := IdsOf(candidates);
      var short := Shortlist(ids, dense, lexical, topc);
      var batch := seq(|short|, i requires 0 <= i < |short| => TextOf(candidates, short[i]));
      var scores := fuser.reranker.Scores(query, batch, context);
      if scores.None? then None
      else
        var a, b := DenseTop(ids, dense, topc), LexicalTop(ids, lexical, topc);
        var base := (id: Id) => Base(
          Or0(ScoreMap(short, scores.value), id), fuser.round(Or0(dense, id)), fuser.round(Or0(lexical, id)),
          fuser.round(Fused(a, b, id)));
        assert IsSortPermutation(scores.value, fuser.argsort(scores.value));
        Some(CollapsedRanking(Arranged(fuser, short, scores.value, m), FamiliesOf(m), k, base))
  }

  // -- Distinct ids all along --------------------------------------------------------------------

  lemma {:induction false} DistinctCounts<A(!new)>(s: seq<A>)
    ensures Distinct(s) <==> forall x :: multiset(s)[x] <= 1
  {
    if s != [] {
      var init, last := s[..|s| - 1], s[|s| - 1];
      DistinctCounts(init);
      assert s == init + [last];
      assert multiset(s) == multiset(init) + multiset{last};
      assert forall x :: multiset(s)[x] == multiset(init)[x] + (if x == last then 1 else 0);
      assert last in init <==> multiset(init)[last] > 0;
      assert Distinct(s) <==> Distinct(init) && last !in init by { DistinctSplits(s); }
    }
  }

  lemma DistinctSplits<A(!new)>(s: seq<A>)
    requires s != []
    ensures Distinct(s) <==> Distinct(s[..|s| - 1]) && s[|s| - 1] !in s[..|s| - 1]
  {
    var init := s[..|s| - 1];
    assert forall i :: 0 <= i < |init| ==> init[i] == s[i] && s[i] in init;
  }

  lemma SortKeepsDistinct<A(!new)>(s: seq<A>, before: (A, A) -> bool)
    requires Distinct(s)
    ensures Distinct(StableSort(s, before))
  {
    SortKeepsAll(s, before);
    DistinctCounts(s);
    DistinctCounts(StableSort(s, before));
  }

  lemma ArrangedIsDistinct(fuser: Fuser, short: seq<Id>, scores: seq<real>, m: Mirrors)
    requires |short| == |scores| && IsSortPermutation(scores, fuser.argsort(scores)) && Distinct(short)
    ensures Distinct(Arranged(fuser, short, scores, m))
  {
    if m.Mirrors? { SortKeepsDistinct(short, (x: Id, y: Id) => Better(ScoreMap(short, scores), m, x, y)); }
  }

  lemma {:induction false} ScoreMapAt(ids: seq<Id>, scores: seq<real>, p: nat)
    requires |ids| == |scores| && Distinct(ids) && p < |ids|
    ensures ids[p] in ScoreMap(ids, scores) && ScoreMap(ids, scores)[ids[p]] == scores[p]
  {
    if p < |ids| - 1 { ScoreMapAt(ids[..|ids| - 1], scores[..|ids| - 1], p); }
  }

  lemma BetterComposes(scores: map<Id, real>, m: Mirrors, a: Id, b: Id, c: Id)
    ensures Better(scores, m, a, b) ==> !Better(scores, m, b, a)
    ensures !Better(scores, m, a, b) && !Better(scores, m, b, c) ==> !Better(scores, m, a, c)
  {
    IdsAreOrdered(a, b);
    IdsAreOrdered(b, c);
    IdsAreOrdered(a, c);
    if IdBefore(a, c) && IdBefore(c, b) { IdBeforeIsTransitive(a, c, b); }
    if IdBefore(b, a) && IdBefore(a, c) { IdBeforeIsTransitive(b, a, c); }
  }

  /** Candidates are ranked best first, with or without families. */
  lemma ArrangedBestFirst(fuser: Fuser, short: seq<Id>, scores: seq<real>, m: Mirrors)
    requires |short| == |scores| && IsSortPermutation(scores, fuser.argsort(scores)) && Distinct(short)
    ensures var ranked, s := Arranged(fuser, short, scores, m), ScoreMap(short, scores);
      forall i, j :: 0 <= i < j < |ranked| ==> Or0(s, ranked[i]) >= Or0(s, ranked[j])
  {
    var s := ScoreMap(short, scores);
    if m.NoMirrors? {
      forall p | 0 <= p < |short| ensures Or0(s, short[p]) == scores[p] { ScoreMapAt(short, scores, p); }
    } else {
      var better := (x: Id, y: Id) => Better(s, m, x, y);
      forall x, y, z
        ensures better(x, y) ==> !better(y, x)
        ensures !better(x, y) && !better(y, z) ==> !better(x, z)
      {
        BetterComposes(s, m, x, y, z);
      }
      SortSorts(short, better);
    }
  }

  lemma ShortlistIsDistinct(ids: seq<Id>, dense: map<Id, real>, lexical: map<Id, real>, topc: int)
    ensures Distinct(Shortlist(ids, dense, lexical, topc))
  {
    var a, b := DenseTop(ids, dense, topc), LexicalTop(ids, lexical, topc);
    DedupeKeepsMembers(a + b);
    SortKeepsDistinct(Dedupe(a + b), (x: Id, y: Id) => Fused(a, b, x) > Fused(a, b, y));
  }

  lemma {:induction false} SameInsert<A(!new)>(s: seq<A>, x: A, f: (A, A) -> bool, g: (A, A) -> bool)
    requires forall x, y :: f(x, y) == g(x, y)
    ensures Insert(s, x, f) == Insert(s, x, g)
  {
    if s != [] { SameInsert(s[..|s| - 1], x, f, g); }
  }

  lemma {:induction false} SameSort<A(!new)>(s: seq<A>, f: (A, A) -> bool, g: (A, A) -> bool)
    requires forall x, y :: f(x, y) == g(x, y)
    ensures StableSort(s, f) == StableSort(s, g)
  {
    if s != [] {
      SameSort(s[..|s| - 1], f, g);
      SameInsert(StableSort(s[..|s| - 1], f), s[|s| - 1], f, g);
    }
  }

  lemma SameListing(order: seq<Id>, fam: Families, k: int, f: Id -> Base, g: Id -> Base)
    requires forall id :: f(id) == g(id)
    ensures CollapsedRanking(order, fam, k, f) == CollapsedRanking(order, fam, k, g)
  {
    var looked := order[..Cutoff(order, fam, k, 0)];
    assert forall p :: 0 <= p < |Firsts(looked, fam)| ==> Entry(looked, fam, f, p) == Entry(looked, fam, g, p);
  }

  // -- What a ranking delivers --------------------------------------------------------------------

  ghost predicate Pairwise<A>(s: seq<A>, rel: (A, A) -> bool) {
    forall i, j :: 0 <= i < j < |s| ==> rel(s[i], s[j])
  }

  /** What holds between any two ids of an order holds between any two that are kept. */
  lemma {:induction false} FirstsPairwise(order: seq<Id>, fam: Families, rel: (Id, Id) -> bool)
    requires Pairwise(order, rel)
    ensures Pairwise(Firsts(order, fam), rel)
  {
    if order != [] {
      var before, x := order[..|order| - 1], order[|order| - 1];
      FirstsPairwise(before, fam, rel);
      FirstsMeaning(before, fam);
      var earlier := Firsts(before, fam);
      forall p | 0 <= p < |earlier| ensures rel(earlier[p], x) {
        assert earlier[p] in before;
        var i :| 0 <= i < |before| && before[i] == earlier[p];
      }
    }
  }

  /** The entries are candidates, each once and in its place, best first, within the limit, and
      no two of one family. */
  ghost predicate Delivers(ranked: seq<Ranked>, candidates: seq<Id>, k: int, fam: Families) {
    && (forall p :: 0 <= p < |ranked| ==> ranked[p].id in candidates && ranked[p].finalRank == p)
    && (forall p, q :: 0 <= p < q < |ranked| ==> ranked[p].id != ranked[q].id)
    && (forall p, q :: 0 <= p < q < |ranked| ==> ranked[p].base.score >= ranked[q].base.score)
    && (forall p, q :: 0 <= p < q < |ranked| ==> !SameFamily(fam, ranked[p].id, ranked[q].id))
    && (k > 0 ==> |ranked| <= k)
  }

  lemma CollapsedDelivers(order: seq<Id>, candidates: seq<Id>, fam: Families, k: int, base: Id -> Base)
    requires Distinct(order) && forall x :: x in order ==> x in candidates
    requires forall i, j :: 0 <= i < j < |order| ==> base(order[i]).score >= base(order[j]).score
    ensures Delivers(CollapsedRanking(order, fam, k, base), candidates, k, fam)
  {
    RankingMeaning(order, fam, k, base);
    var looked := order[..Cutoff(order, fam, k, 0)];
    var differ, above := (x: Id, y: Id) => x != y, (x: Id, y: Id) => base(x).score >= base(y).score;
    assert Pairwise(looked, differ) && Pairwise(looked, above);
    FirstsPairwise(looked, fam, differ);
    FirstsPairwise(looked, fam, above);
    var kept, ranked := Firsts(looked, fam), CollapsedRanking(order, fam, k, base);
    forall p, q | 0 <= p < q < |ranked|
      ensures ranked[p].id != ranked[q].id && ranked[p].base.score >= ranked[q].base.score
    {
      assert ranked[p].id == kept[p] && ranked[q].id == kept[q];
      assert differ(kept[p], kept[q]) && above(kept[p], kept[q]);
    }
  }

  lemma SortKeepsMembers<A(!new)>(s: seq<A>, before: (A, A) -> bool)
    ensures forall x :: x in StableSort(s, before) <==> x in s
  {
    SortKeepsAll(s, before);
    assert forall x :: x in s <==> x in multiset(s);
    assert forall x :: x in StableSort(s, before) <==> x in multiset(StableSort(s, before));
  }

  lemma ShortlistFromCandidates(ids: seq<Id>, dense: map<Id, real>, lexical: map<Id, real>, topc: int)
    ensures forall x :: x in Shortlist(ids, dense, lexical, topc) ==> x in ids
  {
    var a, b := DenseTop(ids, dense, topc), LexicalTop(ids, lexical, topc);
    SortKeepsMembers(ids, (x: Id, y: Id) => DenserThan(dense, x, y));
    SortKeepsMembers(ids, (x: Id, y: Id) => Or0(lexical, x) > Or0(lexical, y));
    assert forall x :: x in a ==> x in ids;
    assert forall x :: x in b ==> x in ids;
    DedupeKeepsMembers(a + b);
    SortKeepsMembers(Dedupe(a + b), (x: Id, y: Id) => Fused(a, b, x) > Fused(a, b, y));
    forall x | x in Shortlist(ids, dense, lexical, topc) ensures x in ids {
      assert x in Dedupe(a + b);
      assert x in a + b;
    }
  }

  lemma ArrangedFromShortlist(fuser: Fuser, short: seq<Id>, scores: seq<real>, m: Mirrors)
    requires |short| == |scores| && IsSortPermutation(scores, fuser.argsort(scores))
    ensures forall x :: x in Arranged(fuser, short, scores, m) ==> x in short
  {
    if m.Mirrors? { SortKeepsMembers(short, (x: Id, y: Id) => Better(ScoreMap(short, scores), m, x, y)); }
  }

  /** What fusing, reranking and collapsing deliver, whatever the reranker scored. */
  lemma FusedDelivers(
    fuser: Fuser, query: string, candidates: seq<Candidate>, dense: map<Id, real>, lexical: map<Id, real>,
    k: int, topc: int, m: Mirrors, context: string)
    requires fuser.Valid()
    ensures var ranked := FusedRanking(fuser, query, candidates, dense, lexical, k, topc, m, context);
      ranked.Some? ==> Delivers(ranked.value, IdsOf(candidates), k, FamiliesOf(m))
  {
    var ranked := FusedRanking(fuser, query, candidates, dense, lexical, k, topc, m, context);
    if candidates != [] && ranked.Some? {
      var ids := IdsOf(candidates);
      var short := Shortlist(ids, dense, lexical, topc);
      var batch := seq(|short|, i requires 0 <= i < |short| => TextOf(candidates, short[i]));
      var scores := fuser.reranker.Scores(query, batch, context).value;
      var a, b := DenseTop(ids, dense, topc), LexicalTop(ids, lexical, topc);
      var base := (id: Id) => Base(
        Or0(ScoreMap(short, scores), id), fuser.round(Or0(dense, id)), fuser.round(Or0(lexical, id)),
        fuser.round(Fused(a, b, id)));
      assert IsSortPermutation(scores, fuser.argsort(scores));
      ShortlistIsDistinct(ids, dense, lexical, topc);
      ShortlistFromCandidates(ids, dense, lexical, topc);
      ArrangedIsDistinct(fuser, short, scores, m);
      ArrangedFromShortlist(fuser, short, scores, m);
      ArrangedBestFirst(fuser, short, scores, m);
      CollapsedDelivers(Arranged(fuser, short, scores, m), ids, FamiliesOf(m), k, base);
    }
  }

  method FuseRerank(
    fuser: Fuser, query: string, candidates: seq<Candidate>, dense: map<Id, real>, lexical: map<Id, real>,
    k: int, topc: int, m: Mirrors, context: string) returns (ranked: Option<seq<Ranked>>)
    requires fuser.Valid()
    ensures ranked == FusedRanking(fuser, query, candidates, dense, lexical, k, topc, m, context)
  {
    if candidates == [] {
      return Some([]);
    }
    var ids := IdsOf(candidates);
    var a, b := DenseTop(ids, dense, topc), LexicalTop(ids, lexical, topc);
    var order, fused := Rrf(a, b);
    var short := Prefix(StableSort(order, (x: Id, y: Id) => Or0(fused, x) > Or0(fused, y)), topc);
    SameSort(
      order, (x: Id, y: Id) => Or0(fused, x) > Or0(fused, y), (x: Id, y: Id) => Fused(a, b, x) > Fused(a, b, y));
    ShortlistIsDistinct(ids, dense, lexical, topc);
    var batch := seq(|short|, i requires 0 <= i < |short| => TextOf(candidates, short[i]));
    var scores := fuser.reranker.Scores(query, batch, context);
    if scores.None? {
      return None;
    }
    assert IsSortPermutation(scores.value, fuser.argsort(scores.value));
    ArrangedIsDistinct(fuser, short, scores.value, m);
    var base := (id: Id) => Base(
      Or0(ScoreMap(short, scores.value), id), fuser.round(Or0(dense, id)), fuser.round(Or0(lexical, id)),
      fuser.round(Or0(fused, id)));
    var entries := RankAndCollapse(Arranged(fuser, short, scores.value, m), FamiliesOf(m), k, base);
    SameListing(
      Arranged(fuser, short, scores.value, m), FamiliesOf(m), k, base,
      (id: Id) => Base(
        Or0(ScoreMap(short, scores.value), id), fuser.round(Or0(dense, id)), fuser.round(Or0(lexical, id)),
        fuser.round(Fused(a, b, id))));
    return Some(entries);
  }
}
