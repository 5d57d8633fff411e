/** What collapsing a ranking delivers, entry by entry, for any order of its elements. */
module Collapsing {
  import opened Common
  import opened VectorSearch
  import opened Fusion

  predicate IsListed(ranked: seq<Ranked>, x: Id) {
    exists p :: 0 <= p < |ranked| && ranked[p].id == x
  }

  predicate Notes(r: Ranked, x: Id) {
    r.collapse.Some? && x in r.collapse.value.collapsed
  }

  /** An entry carries its own signals and notes later members of its family, in order. */
  ghost predicate EntryOk(r: Ranked, order: seq<Id>, fam: Families, base: Id -> Base, rel: (Id, Id) -> bool) {
    && r.id in order && r.base == base(r.id)
    && (r.collapse.Some? ==>
          var c := r.collapse.value;
          && r.id in fam && c.key == fam[r.id] && c.kept == r.id && c.collapsed != [] && Pairwise(c.collapsed, rel)
          && forall x :: x in c.collapsed ==> x in order && x != r.id && SameFamily(fam, x, r.id) && rel(r.id, x))
  }

  /** The entries in their order, one of each family. Whatever is missing is noted on an entry of
      its family, or comes behind all entries of a full ranking; nothing noted comes behind the
      last entry of a full ranking. */
  ghost predicate Collapses(
    ranked: seq<Ranked>, order: seq<Id>, fam: Families, k: int, base: Id -> Base, rel: (Id, Id) -> bool)
  {
    && EntriesOk(ranked, order, fam, base, rel) && OneOfEach(ranked, fam, rel)
    && (forall x :: x in order ==> Accounted(ranked, k, rel, x))
    && (|ranked| == k ==> NotedInFront(ranked, rel))
    && (k > 0 ==> |ranked| <= k) && (order != [] ==> ranked != [])
  }

  ghost predicate EntriesOk(ranked: seq<Ranked>, order: seq<Id>, fam: Families, base: Id -> Base, rel: (Id, Id) -> bool) {
    forall p :: 0 <= p < |ranked| ==> EntryOk(ranked[p], order, fam, base, rel) && ranked[p].finalRank == p
  }

  ghost predicate OneOfEach(ranked: seq<Ranked>, fam: Families, rel: (Id, Id) -> bool) {
    forall p, q :: 0 <= p < q < |ranked| ==>
      && rel(ranked[p].id, ranked[q].id) && ranked[p].id != ranked[q].id
      && !SameFamily(fam, ranked[p].id, ranked[q].id)
  }

  ghost predicate NotedInFront(ranked: seq<Ranked>, rel: (Id, Id) -> bool) {
    forall p, x :: 0 <= p < |ranked| && Notes(ranked[p], x) ==> rel(x, ranked[|ranked| - 1].id)
  }

  ghost predicate Accounted(ranked: seq<Ranked>, k: int, rel: (Id, Id) -> bool, x: Id) {
    || IsListed(ranked, x) || (exists p :: 0 <= p < |ranked| && Notes(ranked[p], x))
    || (|ranked| == k && forall p :: 0 <= p < |ranked| ==> rel(ranked[p].id, x))
  }

  // -- Kept ids and their losers -------------------------------------------------------------------

  /** A kept id comes before every other member of its family. */
  lemma {:induction false} KeptComesFirst(order: seq<Id>, fam: Families, rel: (Id, Id) -> bool, y: Id, x: Id)
    requires Pairwise(order, rel) && y in Firsts(order, fam) && x in order && x != y && SameFamily(fam, x, y)
    ensures rel(y, x)
  {
    var init, last := order[..|order| - 1], order[|order| - 1];
    FirstsMeaning(init, fam);
    FirstsMeaning(order, fam);
    assert order == init + [last];
    if x == last {
      assert y in init;
      var i :| 0 <= i < |init| && init[i] == y;
    } else if y in Firsts(init, fam) {
      KeptComesFirst(init, fam, rel, y, x);
    } else {
      assert y == last && SameFamily(fam, y, x);
      assert false;
    }
  }

  lemma {:induction false} LosersPairwise(order: seq<Id>, fam: Families, rel: (Id, Id) -> bool, id: Id)
    requires Pairwise(order, rel)
    ensures Pairwise(Losers(order, fam, id), rel)
  {
    if order != [] {
      var init, last := order[..|order| - 1], order[|order| - 1];
      LosersPairwise(init, fam, rel, id);
      LosersMeaning(init, fam, id);
      var before := Losers(init, fam, id);
      forall p | 0 <= p < |before| ensures rel(before[p], last) {
        assert before[p] in before;
        var i :| 0 <= i < |init| && init[i] == before[p];
      }
    }
  }

  lemma EntryIsOk(order: seq<Id>, fam: Families, base: Id -> Base, rel: (Id, Id) -> bool, p: nat)
    requires Pairwise(order, rel) && p < |Firsts(order, fam)|
    ensures EntryOk(Fusion.Entry(order, fam, base, p), order, fam, base, rel)
  {
    var id := Firsts(order, fam)[p];
    FirstsMeaning(order, fam);
    assert id in Firsts(order, fam);
    LosersMeaning(order, fam, id);
    LosersPairwise(order, fam, rel, id);
    forall x | x in Losers(order, fam, id) ensures rel(id, x) { KeptComesFirst(order, fam, rel, id, x); }
  }

  // -- Where the loop stops ------------------------------------------------------------------------

  /** A full ranking ends with the element that filled it. */
  lemma {:induction false} FilledLast(order: seq<Id>, fam: Families, k: int, i: nat)
    requires k > 0 && i <= |order| && |Firsts(order[..i], fam)| < k
    requires |Firsts(order[..Cutoff(order, fam, k, i)], fam)| == k
    ensures var n := Cutoff(order, fam, k, i);
      i < n <= |order| && Firsts(order[..n], fam) == Firsts(order[..n - 1], fam) + [order[n - 1]]
    decreases |order| - i
  {
    assert i < |order|;
    assert order[..i + 1][..i] == order[..i];
    if |Firsts(order[..i + 1], fam)| < k { FilledLast(order, fam, k, i + 1); }
  }

  lemma PrefixPairwise(order: seq<Id>, rel: (Id, Id) -> bool, n: nat)
    requires Pairwise(order, rel) && n <= |order|
    ensures Pairwise(order[..n], rel)
  {
  }

  lemma EverythingAccounted(order: seq<Id>, fam: Families, k: int, base: Id -> Base, rel: (Id, Id) -> bool, x: Id)
    requires Pairwise(order, rel) && x in order
    ensures Accounted(CollapsedRanking(order, fam, k, base), k, rel, x)
  {
    var n := Cutoff(order, fam, k, 0);
    var looked, ranked := order[..n], CollapsedRanking(order, fam, k, base);
    CutoffMeaning(order, fam, k, 0);
    if x in looked {
      RankedOrNoted(looked, fam, base, x);
    } else {
      var j :| 0 <= j < |order| && order[j] == x;
      FirstsMeaning(looked, fam);
      forall p | 0 <= p < |ranked| ensures rel(ranked[p].id, x) {
        assert ranked[p].id == Firsts(looked, fam)[p] && Firsts(looked, fam)[p] in looked;
        var i :| 0 <= i < |looked| && looked[i] == ranked[p].id;
        assert order[i] == ranked[p].id && i < j;
      }
    }
  }

  lemma LastKeptIsNotNoted(init: seq<Id>, last: Id, fam: Families, p: nat, x: Id)
    requires Firsts(init + [last], fam) == Firsts(init, fam) + [last] && p < |Firsts(init + [last], fam)|
    requires x != Firsts(init + [last], fam)[p] && SameFamily(fam, x, Firsts(init + [last], fam)[p])
    ensures x != last
  {
    var kept := Firsts(init + [last], fam);
    FirstsMeaning(init + [last], fam);
    assert p < |kept| - 1 ==> !SameFamily(fam, kept[p], kept[|kept| - 1]);
  }

  lemma NotedBeforeLast(order: seq<Id>, fam: Families, k: int, base: Id -> Base, rel: (Id, Id) -> bool, p: nat, x: Id)
    requires Pairwise(order, rel)
    requires var ranked := CollapsedRanking(order, fam, k, base); |ranked| == k && p < |ranked| && Notes(ranked[p], x)
    ensures var ranked := CollapsedRanking(order, fam, k, base); rel(x, ranked[|ranked| - 1].id)
  {
    var n := Cutoff(order, fam, k, 0);
    FilledLast(order, fam, k, 0);
    var looked, kept := order[..n], Firsts(order[..n], fam);
    assert looked == order[..n - 1] + [order[n - 1]];
    LosersMeaning(looked, fam, kept[p]);
    LastKeptIsNotNoted(order[..n - 1], order[n - 1], fam, p, x);
    var i :| 0 <= i < |looked| && looked[i] == x;
    assert i < n - 1 && order[i] == x;
  }

  lemma EntriesInOrder(order: seq<Id>, fam: Families, k: int, base: Id -> Base, rel: (Id, Id) -> bool)
    requires Pairwise(order, rel) && Distinct(order)
    ensures OneOfEach(CollapsedRanking(order, fam, k, base), fam, rel)
  {
    var looked, ranked := order[..Cutoff(order, fam, k, 0)], CollapsedRanking(order, fam, k, base);
    PrefixPairwise(order, rel, |looked|);
    FirstsPairwise(looked, fam, rel);
    var differ := (x: Id, y: Id) => x != y;
    assert Pairwise(looked, differ);
    FirstsPairwise(looked, fam, differ);
    FirstsMeaning(looked, fam);
    assert forall p, q :: 0 <= p < q < |ranked| ==> differ(Firsts(looked, fam)[p], Firsts(looked, fam)[q]);
    assert forall p :: 0 <= p < |ranked| ==> ranked[p].id == Firsts(looked, fam)[p];
  }

  lemma EntriesAreOk(order: seq<Id>, fam: Families, k: int, base: Id -> Base, rel: (Id, Id) -> bool)
    requires Pairwise(order, rel)
    ensures EntriesOk(CollapsedRanking(order, fam, k, base), order, fam, base, rel)
  {
    var looked, ranked := order[..Cutoff(order, fam, k, 0)], CollapsedRanking(order, fam, k, base);
    PrefixPairwise(order, rel, |looked|);
    forall p | 0 <= p < |ranked| ensures EntryOk(ranked[p], order, fam, base, rel) && ranked[p].finalRank == p {
      EntryIsOk(looked, fam, base, rel, p);
      assert ranked[p] == Fusion.Entry(looked, fam, base, p);
      assert forall x :: x in looked ==> x in order;
    }
  }

  /** Collapsing any order delivers this. */
  lemma CollapsingDelivers(order: seq<Id>, fam: Families, k: int, base: Id -> Base, rel: (Id, Id) -> bool)
    requires Pairwise(order, rel) && Distinct(order)
    ensures Collapses(CollapsedRanking(order, fam, k, base), order, fam, k, base, rel)
  {
    var ranked := CollapsedRanking(order, fam, k, base);
    CutoffMeaning(order, fam, k, 0);
    EntriesInOrder(order, fam, k, base, rel);
    EntriesAreOk(order, fam, k, base, rel);
    forall x | x in order ensures Accounted(ranked, k, rel, x) { EverythingAccounted(order, fam, k, base, rel, x); }
    if |ranked| == k {
      forall p, x | 0 <= p < |ranked| && Notes(ranked[p], x) ensures rel(x, ranked[|ranked| - 1].id) {
        NotedBeforeLast(order, fam, k, base, rel, p, x);
      }
    }
    if order != [] { StopsLate(order, fam, k); }
  }

  lemma StopsLate(order: seq<Id>, fam: Families, k: int)
    requires order != []
    ensures Firsts(order[..Cutoff(order, fam, k, 0)], fam) != []
  {
    var n := Cutoff(order, fam, k, 0);
    assert n == Cutoff(order, fam, k, 1);
    CutoffGrows(order, fam, k, 1);
    FirstsMeaning(order[..n], fam);
    assert order[..n][0] in order[..n];
  }

  lemma {:induction false} CutoffGrows(order: seq<Id>, fam: Families, k: int, i: nat)
    requires i <= |order|
    ensures Cutoff(order, fam, k, i) >= i
    decreases |order| - i
  {
    if i < |order| && !(i > 0 && |Firsts(order[..i], fam)| == k) { CutoffGrows(order, fam, k, i + 1); }
  }
}
