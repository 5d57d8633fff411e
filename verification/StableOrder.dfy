/** Where a stable sort puts each element: behind the better ones, and of those that tie behind
    the earlier ones. */
module StableOrder {
  import opened Common
  import opened Fusion
  import opened VectorSearch

  /** How many elements of `s` come before `x`, which stands at place `i` of it. */
  function Ahead<A>(s: seq<A>, x: A, i: nat, before: (A, A) -> bool): (n: nat)
    ensures n <= |s|
  {
    if s == [] then 0
    else
      var j := |s| - 1;
      Ahead(s[..j], x, i, before) + if before(s[j], x) || (j < i && !before(x, s[j])) then 1 else 0
  }

  /** Where a slice up to `n` of `len` elements ends. */
  function SliceEnd(n: int, len: nat): nat {
    if n > len then len else if n >= 0 then n else if len + n > 0 then len + n else 0
  }

  // -- Inserting -------------------------------------------------------------------------------

  function NotBehind<A>(x: A, before: (A, A) -> bool): A -> bool {
    (y: A) => !before(x, y)
  }

  /** Where an element goes: behind the first `q`. */
  ghost predicate GoesBehind<A(!new)>(s: seq<A>, x: A, before: (A, A) -> bool, q: nat) {
    && q <= |s| && Fusion.Insert(s, x, before) == s[..q] + [x] + s[q..]
    && (forall k :: 0 <= k < q ==> !before(x, s[k])) && (forall k :: q <= k < |s| ==> before(x, s[k]))
  }

  lemma GoesFurtherForward<A(!new)>(init: seq<A>, last: A, x: A, before: (A, A) -> bool, q: nat)
    requires GoesBehind(init, x, before, q) && before(x, last)
    ensures GoesBehind(init + [last], x, before, q)
  {
    var s := init + [last];
    assert s[..|init|] == init && s[..q] == init[..q] && s[q..] == init[q..] + [last];
    SeqAssociates(init[..q] + [x], init[q..], [last]);
  }

  lemma GoesLast<A(!new)>(s: seq<A>, x: A, before: (A, A) -> bool)
    requires WeakOrder(before) && InOrder(s, before) && (s != [] ==> !before(x, s[|s| - 1]))
    ensures GoesBehind(s, x, before, |s|)
  {
    assert s[..|s|] == s && s[|s|..] == [];
    forall k | 0 <= k < |s| ensures !before(x, s[k]) { assert k < |s| - 1 ==> !before(s[|s| - 1], s[k]); }
  }

  /** An element goes behind all that it is not better than. */
  lemma {:induction false} InsertAt<A(!new)>(s: seq<A>, x: A, before: (A, A) -> bool)
    requires WeakOrder(before) && InOrder(s, before)
    ensures GoesBehind(s, x, before, |Filter(s, NotBehind(x, before))|)
  {
    if s == [] || !before(x, s[|s| - 1]) {
      GoesLast(s, x, before);
      assert forall y :: y in s ==> !before(x, y);
      FilterAll(s, NotBehind(x, before));
    } else {
      var init, last := s[..|s| - 1], s[|s| - 1];
      assert s == init + [last];
      InsertAt(init, x, before);
      FilterAppend(init, [last], NotBehind(x, before));
      FilterNone([last], NotBehind(x, before));
      GoesFurtherForward(init, last, x, before, |Filter(init, NotBehind(x, before))|);
    }
  }

  lemma {:induction false} InsertCounts<A(!new)>(s: seq<A>, x: A, before: (A, A) -> bool, keep: A -> bool)
    ensures |Filter(Fusion.Insert(s, x, before), keep)| == |Filter(s, keep)| + if keep(x) then 1 else 0
  {
    FilterAppend(s, [x], keep);
    if s != [] && before(x, s[|s| - 1]) {
      var init, last := s[..|s| - 1], s[|s| - 1];
      assert s == init + [last];
      InsertCounts(init, x, before, keep);
      FilterAppend(init, [last], keep);
      FilterAppend(Fusion.Insert(init, x, before), [last], keep);
    }
  }

  lemma {:induction false} SortCounts<A(!new)>(s: seq<A>, before: (A, A) -> bool, keep: A -> bool)
    ensures |Filter(StableSort(s, before), keep)| == |Filter(s, keep)|
  {
    if s != [] {
      var init, last := s[..|s| - 1], s[|s| - 1];
      SortCounts(init, before, keep);
      InsertCounts(StableSort(init, before), last, before, keep);
      FilterAppend(init, [last], keep);
      assert s == init + [last];
    }
  }

  /** For an element behind all of `s`, those ahead are those it is not better than. */
  lemma {:induction false} AheadOfLast<A(!new)>(s: seq<A>, x: A, i: nat, before: (A, A) -> bool)
    requires WeakOrder(before) && |s| <= i
    ensures Ahead(s, x, i, before) == |Filter(s, NotBehind(x, before))|
  {
    if s != [] {
      var init, last := s[..|s| - 1], s[|s| - 1];
      AheadOfLast(init, x, i, before);
      assert s == init + [last];
      FilterAppend(init, [last], NotBehind(x, before));
    }
  }

  // -- The place of every element -----------------------------------------------------------------

  lemma PlacesAfterInsert<A(!new)>(r: seq<A>, x: A, before: (A, A) -> bool, q: nat)
    requires GoesBehind(r, x, before, q)
    ensures var t := Fusion.Insert(r, x, before);
      && |t| == |r| + 1 && t[q] == x
      && (forall p :: 0 <= p < |r| ==> r[p] == t[if before(x, r[p]) then p + 1 else p])
  {
  }

  lemma AheadNext<A>(s: seq<A>, x: A, y: A, i: nat, before: (A, A) -> bool)
    ensures Ahead(s + [x], y, i, before) ==
      Ahead(s, y, i, before) + if before(x, y) || (|s| < i && !before(y, x)) then 1 else 0
  {
    assert (s + [x])[..|s|] == s;
  }

  /** The element inserted last goes to the place of those ahead of it. */
  lemma LastPlace<A(!new)>(init: seq<A>, x: A, before: (A, A) -> bool)
    requires WeakOrder(before)
    ensures PlacedAt(init + [x], StableSort(init + [x], before), |init|, before)
  {
    var r := StableSort(init, before);
    assert (init + [x])[..|init|] == init;
    AheadNext(init, x, x, |init|, before);
    SortSorts(init, before);
    InsertAt(r, x, before);
    PlacesAfterInsert(r, x, before, |Filter(r, NotBehind(x, before))|);
    SortCounts(init, before, NotBehind(x, before));
    AheadOfLast(init, x, |init|, before);
    assert !before(x, x);
  }

  lemma SortOfAppend<A>(init: seq<A>, x: A, before: (A, A) -> bool)
    ensures StableSort(init + [x], before) == Fusion.Insert(StableSort(init, before), x, before)
  {
    assert (init + [x])[..|init|] == init;
  }

  /** Sorting one element more: the others keep their places up to where it goes, and move up by
      one from there. */
  ghost predicate Moved<A(!new)>(r: seq<A>, t: seq<A>, x: A, before: (A, A) -> bool) {
    && |t| == |r| + 1
    && forall p :: 0 <= p < |r| ==> r[p] == t[if before(x, r[p]) then p + 1 else p]
  }

  lemma SortMoves<A(!new)>(init: seq<A>, x: A, before: (A, A) -> bool)
    requires WeakOrder(before)
    ensures Moved(StableSort(init, before), StableSort(init + [x], before), x, before)
  {
    var r := StableSort(init, before);
    SortOfAppend(init, x, before);
    SortSorts(init, before);
    InsertAt(r, x, before);
    PlacesAfterInsert(r, x, before, |Filter(r, NotBehind(x, before))|);
  }

  /** An earlier one moves up by one if it is behind the new element. */
  lemma EarlierPlace<A(!new)>(init: seq<A>, x: A, before: (A, A) -> bool, i: nat, r: seq<A>, t: seq<A>)
    requires i < |init| && PlacedAt(init, r, i, before) && Moved(r, t, x, before)
    ensures PlacedAt(init + [x], t, i, before)
  {
    var y, p := init[i], Ahead(init, init[i], i, before);
    AheadNext(init, x, y, i, before);
    MovedUp(init + [x], r, t, y, i, before, p, before(x, r[p]));
  }

  lemma MovedUp<A>(s: seq<A>, r: seq<A>, t: seq<A>, y: A, i: nat, before: (A, A) -> bool, p: nat, moved: bool)
    requires i < |s| && s[i] == y && p < |r| && r[p] == y && |t| == |r| + 1
    requires Ahead(s, y, i, before) == p + (if moved then 1 else 0) && t[if moved then p + 1 else p] == y
    ensures PlacedAt(s, t, i, before)
  {
  }

  /** Element `i` of `s` stands in `r` at the place of those ahead of it. */
  ghost predicate PlacedAt<A>(s: seq<A>, r: seq<A>, i: nat, before: (A, A) -> bool) {
    i < |s| && Ahead(s, s[i], i, before) < |r| && r[Ahead(s, s[i], i, before)] == s[i]
  }

  /** A stable sort puts each element at the place of those ahead of it. */
  lemma {:induction false} StablePlace<A(!new)>(s: seq<A>, before: (A, A) -> bool, i: nat)
    requires WeakOrder(before) && i < |s|
    ensures PlacedAt(s, StableSort(s, before), i, before)
  {
    var init, x := s[..|s| - 1], s[|s| - 1];
    assert s == init + [x];
    if i < |init| {
      StablePlace(init, before, i);
      SortMoves(init, x, before);
      EarlierPlace(init, x, before, i, StableSort(init, before), StableSort(s, before));
    } else {
      LastPlace(init, x, before);
    }
  }

  /** Of two that tie, the earlier one has fewer ahead. */
  lemma {:induction false} EarlierTieIsAhead<A(!new)>(s: seq<A>, a: A, b: A, i: nat, j: nat, before: (A, A) -> bool)
    requires WeakOrder(before) && i < j && !before(a, b) && !before(b, a)
    requires i < |s| ==> s[i] == a
    ensures Ahead(s, a, i, before) + (if i < |s| then 1 else 0) <= Ahead(s, b, j, before)
  {
    if s != [] { EarlierTieIsAhead(s[..|s| - 1], a, b, i, j, before); }
  }

  function IndexOf<A(==)>(s: seq<A>, x: A): (i: nat)
    ensures i <= |s| && (i < |s| <==> x in s) && (i < |s| ==> s[i] == x) && forall k :: 0 <= k < i ==> s[k] != x
  {
    if s == [] || s[0] == x then 0 else 1 + IndexOf(s[1..], x)
  }

  lemma IndexOfDistinct<A>(s: seq<A>, i: nat)
    requires Distinct(s) && i < |s|
    ensures IndexOf(s, s[i]) == i
  {
  }

  /** A better element, or one that ties and stood earlier. */
  predicate StablyBefore<A(==)>(s: seq<A>, before: (A, A) -> bool, x: A, y: A) {
    before(x, y) || (!before(y, x) && IndexOf(s, x) < IndexOf(s, y))
  }

  lemma TieKeepsOrder<A(!new)>(s: seq<A>, before: (A, A) -> bool, p: nat, q: nat)
    requires WeakOrder(before) && Distinct(s) && p < q < |StableSort(s, before)|
    requires var r := StableSort(s, before); r[p] in s && r[q] in s && !before(r[p], r[q]) && !before(r[q], r[p])
    requires Distinct(StableSort(s, before))
    ensures IndexOf(s, StableSort(s, before)[p]) < IndexOf(s, StableSort(s, before)[q])
  {
    var r := StableSort(s, before);
    var i, j := IndexOf(s, r[p]), IndexOf(s, r[q]);
    StablePlace(s, before, i);
    StablePlace(s, before, j);
    if j < i { EarlierTieIsAhead(s, s[j], s[i], j, i, before); }
  }

  /** Any two elements come out of a stable sort in this order. */
  lemma SortedStably<A(!new)>(s: seq<A>, before: (A, A) -> bool)
    requires WeakOrder(before) && Distinct(s)
    ensures forall p, q :: 0 <= p < q < |StableSort(s, before)| ==>
      StablyBefore(s, before, StableSort(s, before)[p], StableSort(s, before)[q])
  {
    SortSorts(s, before);
    SortKeepsMembers(s, before);
    SortKeepsDistinct(s, before);
    var r := StableSort(s, before);
    forall p, q | 0 <= p < q < |r| ensures StablyBefore(s, before, r[p], r[q]) {
      assert r[p] in s && r[q] in s && !before(r[q], r[p]);
      if !before(r[p], r[q]) { TieKeepsOrder(s, before, p, q); }
    }
  }

  /** What a slice of a stable sort holds: the elements with few enough ahead of them. */
  lemma SliceHolds<A(!new)>(s: seq<A>, before: (A, A) -> bool, n: int, x: A)
    requires WeakOrder(before) && Distinct(s)
    ensures x in Prefix(StableSort(s, before), n) <==>
      x in s && Ahead(s, x, IndexOf(s, x), before) < SliceEnd(n, |s|)
  {
    SortKeepsAll(s, before);
    SortKeepsMembers(s, before);
    SortKeepsDistinct(s, before);
    var r := StableSort(s, before);
    assert Prefix(r, n) == r[..SliceEnd(n, |s|)];
    if x in s {
      var i := IndexOf(s, x);
      StablePlace(s, before, i);
      assert forall p :: 0 <= p < |r| && r[p] == x ==> p == Ahead(s, x, i, before);
    }
  }

  /** The counts depend on the comparisons only. */
  lemma {:induction false} AheadMaps<A, B>(
    s: seq<A>, t: seq<B>, x: A, y: B, i: nat, f: (A, A) -> bool, g: (B, B) -> bool)
    requires |s| == |t|
    requires forall j :: 0 <= j < |s| ==> f(s[j], x) == g(t[j], y) && f(x, s[j]) == g(y, t[j])
    ensures Ahead(s, x, i, f) == Ahead(t, y, i, g)
  {
    if s != [] { AheadMaps(s[..|s| - 1], t[..|t| - 1], x, y, i, f, g); }
  }

  lemma {:induction false} DistinctSize<A(!new)>(s: seq<A>)
    requires Distinct(s)
    ensures |Elements(s)| == |s|
  {
    if s != [] {
      DistinctSplits(s);
      DistinctSize(s[..|s| - 1]);
      assert Elements(s) == Elements(s[..|s| - 1]) + {s[|s| - 1]};
    }
  }

  function Below(n: nat): (all: set<nat>)
    ensures |all| == n && forall i: nat :: i in all <==> i < n
  {
    if n == 0 then {} else Below(n - 1) + {n - 1}
  }

  lemma PermutationCovers(places: seq<nat>, n: nat)
    requires |places| == n && Distinct(places) && forall p :: 0 <= p < n ==> places[p] < n
    ensures forall i: nat :: i < n ==> i in places
  {
    DistinctSize(places);
    assert Elements(places) <= Below(n);
    SubsetOfSameSize(Elements(places), Below(n));
    forall i: nat | i < n ensures i in places { assert i in Below(n); }
  }
}
