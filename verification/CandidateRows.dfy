/** Which rows a recall considers, said by counting: the readable dense hits, and the readable rows
    with few enough lexically better ones. */
module CandidateRows {
  import opened Common
  import opened VectorSearch
  import opened Fusion
  import opened StableOrder
  import opened Recall

  const HIGHER: (real, real) -> bool := (x, y) => x > y

  /** What the ranking starts from: the visible rows, the readable ones with their lexical scores,
      and the dense hits with theirs, best first. */
  datatype Inputs = Inputs(
    visible: seq<Meta>, readable: seq<string>, scores: seq<real>, dense: seq<(string, real)>, topc: int)
  {
    /** Ids are primary keys, and an index names a row once. */
    ghost predicate Valid() {
      && |scores| == |readable| && Distinct(readable) && Distinct(DenseIds()) && Distinct(Ids(visible))
      && forall id :: id in readable ==> id in Ids(visible)
    }

    function DenseIds(): seq<string> {
      seq(|dense|, i requires 0 <= i < |dense| => dense[i].0)
    }

    function Lexical(id: string): real {
      if id in readable && |readable| == |scores| then scores[IndexOf(readable, id)] else 0.0
    }

    function DenseScore(id: string): Option<real> {
      if id in DenseIds() then Some(dense[IndexOf(DenseIds(), id)].1) else None
    }

    /** How many readable rows score higher, or as high and stand before. */
    function LexicalPlace(id: string): nat {
      Ahead(scores, Lexical(id), IndexOf(readable, id), HIGHER)
    }

    predicate IsCandidate(id: string) {
      id in readable && (id in DenseIds() || LexicalPlace(id) < SliceEnd(topc, |readable|))
    }

    /** Dense hits first, in their order; then the others, best first. */
    predicate CandidateBefore(a: string, b: string) {
      || IndexOf(DenseIds(), a) < IndexOf(DenseIds(), b)
      || (a !in DenseIds() && b !in DenseIds() && LexicalPlace(a) < LexicalPlace(b))
    }

    ghost predicate AreCandidates(ids: seq<string>) {
      && Distinct(ids) && (forall id :: id in ids <==> IsCandidate(id))
      && forall p, q :: 0 <= p < q < |ids| ==> CandidateBefore(ids[p], ids[q])
    }
  }

  // -- Filtering and deduplicating keep orders ---------------------------------------------------

  lemma {:induction false} FilterPairwise<A(!new)>(s: seq<A>, keep: A -> bool, rel: (A, A) -> bool)
    requires Pairwise(s, rel)
    ensures Pairwise(Filter(s, keep), rel)
  {
    if s != [] {
      var rest := Filter(s[1..], keep);
      FilterPairwise(s[1..], keep, rel);
      forall q | 0 <= q < |rest| ensures rel(s[0], rest[q]) {
        assert rest[q] in rest;
        var i :| 0 <= i < |s[1..]| && s[1..][i] == rest[q];
        assert s[i + 1] == rest[q];
      }
    }
  }

  function NotIn<A(==)>(a: seq<A>): A -> bool {
    (x: A) => x !in a
  }

  /** Two lists without repetition, one after the other: what is new of the second is added. */
  lemma {:induction false} DedupeAfter<A(!new)>(a: seq<A>, b: seq<A>)
    requires Distinct(a) && Distinct(b)
    ensures Dedupe(a + b) == a + Filter(b, NotIn(a))
  {
    if b == [] {
      assert a + b == a && a + Filter(b, NotIn(a)) == a;
      DedupeDistinct(a);
    } else {
      var init, last := b[..|b| - 1], b[|b| - 1];
      DistinctSplits(b);
      DedupeAfter(a, init);
      assert a + b == (a + init) + [last];
      DedupeAppend(a + init, last);
      OneNewElement(a, init, last);
      assert b == init + [last];
    }
  }

  lemma OneNewElement<A(!new)>(a: seq<A>, init: seq<A>, last: A)
    requires last !in init
    ensures last in a + Filter(init, NotIn(a)) <==> last in a
    ensures a + Filter(init + [last], NotIn(a)) ==
      if last in a then a + Filter(init, NotIn(a)) else a + Filter(init, NotIn(a)) + [last]
  {
    FilterAppend(init, [last], NotIn(a));
    if last in a { FilterNone([last], NotIn(a)); } else { FilterAll([last], NotIn(a)); }
  }

  // -- The candidates -----------------------------------------------------------------------------

  function ByLexical(lexical: map<string, real>): (string, string) -> bool {
    (x: string, y: string) => Or0(lexical, x) > Or0(lexical, y)
  }

  lemma ScoresAreLexical(inp: Inputs, i: nat)
    requires inp.Valid() && i < |inp.readable|
    ensures Or0(ScoreMap(inp.readable, inp.scores), inp.readable[i]) == inp.scores[i] == inp.Lexical(inp.readable[i])
  {
    ScoreMapAt(inp.readable, inp.scores, i);
    IndexOfDistinct(inp.readable, i);
  }

  lemma LexicalIsOr0(inp: Inputs, id: string)
    requires inp.Valid()
    ensures Or0(ScoreMap(inp.readable, inp.scores), id) == inp.Lexical(id)
  {
    if id in inp.readable {
      ScoresAreLexical(inp, IndexOf(inp.readable, id));
    } else {
      NoScore(inp.readable, inp.scores, id);
    }
  }

  lemma {:induction false} NoScore(ids: seq<string>, scores: seq<real>, id: string)
    requires |ids| == |scores| && id !in ids
    ensures id !in ScoreMap(ids, scores)
  {
    if ids != [] { NoScore(ids[..|ids| - 1], scores[..|ids| - 1], id); }
  }

  lemma PlaceIsAhead(inp: Inputs, id: string)
    requires inp.Valid() && id in inp.readable
    ensures Ahead(inp.readable, id, IndexOf(inp.readable, id), ByLexical(ScoreMap(inp.readable, inp.scores))) == inp.LexicalPlace(id)
  {
    var lexical := ScoreMap(inp.readable, inp.scores);
    var i := IndexOf(inp.readable, id);
    forall j | 0 <= j < |inp.readable| ensures Or0(lexical, inp.readable[j]) == inp.scores[j] { ScoresAreLexical(inp, j); }
    AheadMaps(inp.readable, inp.scores, id, inp.Lexical(id), i, ByLexical(lexical), HIGHER);
  }

  /** The lexical slice: the rows with few enough better ones, each at its place. */
  lemma LexicalTopHolds(inp: Inputs)
    requires inp.Valid()
    ensures var top := LexicalTop(inp.readable, ScoreMap(inp.readable, inp.scores), inp.topc);
      && Distinct(top)
      && (forall id :: id in top <==> id in inp.readable && inp.LexicalPlace(id) < SliceEnd(inp.topc, |inp.readable|))
      && (forall p :: 0 <= p < |top| ==> inp.LexicalPlace(top[p]) == p)
  {
    var lexical := ScoreMap(inp.readable, inp.scores);
    var before := ByLexical(lexical);
    var sorted := StableSort(inp.readable, before);
    var top := LexicalTop(inp.readable, lexical, inp.topc);
    assert top == Prefix(sorted, inp.topc);
    SortKeepsDistinct(inp.readable, before);
    SortKeepsMembers(inp.readable, before);
    forall id ensures id in top <==> id in inp.readable && inp.LexicalPlace(id) < SliceEnd(inp.topc, |inp.readable|) {
      SliceHolds(inp.readable, before, inp.topc, id);
      if id in inp.readable { PlaceIsAhead(inp, id); }
    }
    forall p | 0 <= p < |top| ensures inp.LexicalPlace(top[p]) == p {
      assert sorted[p] == top[p] && sorted[p] in inp.readable;
      StablePlace(inp.readable, before, IndexOf(inp.readable, top[p]));
      PlaceIsAhead(inp, top[p]);
    }
  }

  function DenseReadable(inp: Inputs): seq<string> {
    Filter(inp.DenseIds(), Among(inp.readable))
  }

  lemma SameDenseReadable(inp: Inputs)
    requires inp.Valid()
    ensures var lexical := ScoreMap(inp.readable, inp.scores);
      CandidateIds(inp.dense, inp.readable, lexical, inp.topc)
      == Dedupe(DenseReadable(inp) + LexicalTop(inp.readable, lexical, inp.topc))
  {
    assert FoundIds(inp.dense) == inp.DenseIds();
  }

  lemma DenseReadableOrder(inp: Inputs)
    requires inp.Valid()
    ensures Distinct(DenseReadable(inp))
    ensures Pairwise(DenseReadable(inp), (x: string, y: string) => IndexOf(inp.DenseIds(), x) < IndexOf(inp.DenseIds(), y))
  {
    var ids := inp.DenseIds();
    var earlier := (x: string, y: string) => IndexOf(ids, x) < IndexOf(ids, y);
    forall p, q | 0 <= p < q < |ids| ensures earlier(ids[p], ids[q]) {
      IndexOfDistinct(ids, p);
      IndexOfDistinct(ids, q);
    }
    FilterPairwise(ids, (id: string) => id in inp.readable, earlier);
    forall p, q | 0 <= p < q < |DenseReadable(inp)| ensures DenseReadable(inp)[p] != DenseReadable(inp)[q] {
      assert earlier(DenseReadable(inp)[p], DenseReadable(inp)[q]);
    }
  }

  /** What recall takes for candidates: exactly the readable dense hits and the readable rows with
      fewer than `topc` better ones, dense hits first. */
  lemma CandidatesMean(inp: Inputs)
    requires inp.Valid()
    ensures inp.AreCandidates(CandidateIds(inp.dense, inp.readable, ScoreMap(inp.readable, inp.scores), inp.topc))
  {
    var lexical := ScoreMap(inp.readable, inp.scores);
    var a, b := DenseReadable(inp), LexicalTop(inp.readable, lexical, inp.topc);
    var rest := Filter(b, NotIn(a));
    LexicalTopHolds(inp);
    DenseReadableOrder(inp);
    DedupeAfter(a, b);
    DedupeKeepsMembers(a + b);
    SameDenseReadable(inp);
    var ids := CandidateIds(inp.dense, inp.readable, lexical, inp.topc);
    assert ids == Dedupe(a + b) == a + rest;
    var lower := (x: string, y: string) => inp.LexicalPlace(x) < inp.LexicalPlace(y);
    assert Pairwise(b, lower);
    FilterPairwise(b, (id: string) => id !in a, lower);
    forall p, q | 0 <= p < q < |ids| ensures inp.CandidateBefore(ids[p], ids[q]) {
      OrderedCandidates(inp, a, rest, p, q);
    }
  }

  lemma OrderedCandidates(inp: Inputs, a: seq<string>, rest: seq<string>, p: nat, q: nat)
    requires inp.Valid() && p < q < |a + rest|
    requires a == DenseReadable(inp) && Pairwise(a, (x: string, y: string) => IndexOf(inp.DenseIds(), x) < IndexOf(inp.DenseIds(), y))
    requires Pairwise(rest, (x: string, y: string) => inp.LexicalPlace(x) < inp.LexicalPlace(y))
    requires forall id :: id in rest ==> id in inp.readable && id !in a
    ensures inp.CandidateBefore((a + rest)[p], (a + rest)[q])
  {
    var earlier := (x: string, y: string) => IndexOf(inp.DenseIds(), x) < IndexOf(inp.DenseIds(), y);
    var lower := (x: string, y: string) => inp.LexicalPlace(x) < inp.LexicalPlace(y);
    if q < |a| {
      assert earlier(a[p], a[q]);
    } else if p < |a| {
      assert a[p] in a && rest[q - |a|] in rest;
    } else {
      assert rest[p - |a|] in rest && rest[q - |a|] in rest;
      assert lower(rest[p - |a|], rest[q - |a|]);
    }
  }
}
