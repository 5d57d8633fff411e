/** What a hybrid recall returns, said without its steps: the candidates best by reciprocal ranks
    are reranked, one of each mirror family, up to the limit; typed scores decide again. */
module HybridRecall {
  import opened Common
  import opened VectorSearch
  import opened Fusion
  import opened StableOrder
  import opened Collapsing
  import opened Recall
  import opened CandidateRows
  import opened LexicalRecall

  // -- Reciprocal ranks -----------------------------------------------------------------------------

  function DenseFirst(inp: Inputs): (string, string) -> bool {
    (a: string, b: string) =>
      inp.DenseScore(a).Some? && (inp.DenseScore(b).None? || inp.DenseScore(a).value > inp.DenseScore(b).value)
  }

  function LexicalFirst(inp: Inputs): (string, string) -> bool {
    (a: string, b: string) => inp.Lexical(a) > inp.Lexical(b)
  }

  /** The place of a candidate under an order. */
  function RankIn(ids: seq<string>, first: (string, string) -> bool, a: string): nat {
    Ahead(ids, a, IndexOf(ids, a), first)
  }

  /** What a rank within the first `end` is worth. */
  function Worth(rank: nat, end: nat): real {
    if rank < end then 1.0 / (60 + rank + 1) as real else 0.0
  }

  function RrfOf(inp: Inputs, ids: seq<string>, a: string): real {
    var end := SliceEnd(inp.topc, |ids|);
    Worth(RankIn(ids, DenseFirst(inp), a), end) + Worth(RankIn(ids, LexicalFirst(inp), a), end)
  }

  /** The candidate is in one of the two rankings as far as they are looked at. */
  predicate IsRanked(inp: Inputs, ids: seq<string>, a: string) {
    var end := SliceEnd(inp.topc, |ids|);
    a in ids && (RankIn(ids, DenseFirst(inp), a) < end || RankIn(ids, LexicalFirst(inp), a) < end)
  }

  /** Where it first appears when the lexical ranking follows the dense one. */
  function Appearance(inp: Inputs, ids: seq<string>, a: string): nat {
    var end := SliceEnd(inp.topc, |ids|);
    if RankIn(ids, DenseFirst(inp), a) < end then RankIn(ids, DenseFirst(inp), a)
    else end + RankIn(ids, LexicalFirst(inp), a)
  }

  function FusedBefore(inp: Inputs, ids: seq<string>): (string, string) -> bool {
    (a: string, b: string) =>
      || RrfOf(inp, ids, a) > RrfOf(inp, ids, b)
      || (RrfOf(inp, ids, a) == RrfOf(inp, ids, b) && Appearance(inp, ids, a) < Appearance(inp, ids, b))
  }

  /** The ranked candidates with the best sums of reciprocal ranks, in order. */
  ghost predicate IsShortlist(inp: Inputs, ids: seq<string>, short: seq<string>) {
    && Distinct(short) && (forall x :: x in short ==> IsRanked(inp, ids, x)) && Pairwise(short, FusedBefore(inp, ids))
    && |short| == SliceEnd(inp.topc, |set x | x in ids && IsRanked(inp, ids, x)|)
    && forall x, y :: x in ids && IsRanked(inp, ids, x) && x !in short && y in short ==> FusedBefore(inp, ids)(y, x)
  }

  // -- The two rankings ------------------------------------------------------------------------------

  lemma DenseFirstIsWeak(inp: Inputs)
    ensures WeakOrder(DenseFirst(inp)) && WeakOrder(LexicalFirst(inp))
  {
  }

  /** A slice of a stable sort: its elements are those of low rank, each at its rank. */
  lemma SliceRanks(ids: seq<string>, first: (string, string) -> bool, n: int)
    requires WeakOrder(first) && Distinct(ids)
    ensures var top := Prefix(StableSort(ids, first), n);
      && Distinct(top) && |top| == SliceEnd(n, |ids|)
      && (forall x :: x in top <==> x in ids && RankIn(ids, first, x) < SliceEnd(n, |ids|))
      && (forall p :: 0 <= p < |top| ==> RankIn(ids, first, top[p]) == p)
  {
    var sorted, top := StableSort(ids, first), Prefix(StableSort(ids, first), n);
    SortKeepsAll(ids, first);
    SortKeepsDistinct(ids, first);
    SortKeepsMembers(ids, first);
    forall x ensures x in top <==> x in ids && RankIn(ids, first, x) < SliceEnd(n, |ids|) { SliceHolds(ids, first, n, x); }
    forall p | 0 <= p < |top| ensures RankIn(ids, first, top[p]) == p {
      assert sorted[p] == top[p] && sorted[p] in ids;
      StablePlace(ids, first, IndexOf(ids, top[p]));
    }
  }

  lemma RankIsWorth(rank: nat, end: nat)
    requires rank < end
    ensures Reciprocal(rank) == Worth(rank, end)
  {
  }

  /** A list is looked up by rank: its share of an id. */
  lemma ShareIsWorth(ids: seq<string>, first: (string, string) -> bool, n: int, x: string)
    requires WeakOrder(first) && Distinct(ids) && x in ids
    ensures ListShare(Prefix(StableSort(ids, first), n), x) == Worth(RankIn(ids, first, x), SliceEnd(n, |ids|))
  {
    var top := Prefix(StableSort(ids, first), n);
    SliceRanks(ids, first, n);
    if x in top {
      var p :| 0 <= p < |top| && top[p] == x;
      ShareOfRank(top, p);
      RankIsWorth(p, SliceEnd(n, |ids|));
    } else {
      NoShare(top, x);
    }
  }

  // -- The program's lists -----------------------------------------------------------------------------

  lemma SameTops(inp: Inputs, ids: seq<string>)
    requires inp.Valid()
    ensures DenseTop(ids, PairMap(inp.dense), inp.topc) == Prefix(StableSort(ids, DenseFirst(inp)), inp.topc)
    ensures LexicalTop(ids, ScoreMap(inp.readable, inp.scores), inp.topc) == Prefix(StableSort(ids, LexicalFirst(inp)), inp.topc)
  {
    var dense, lexical := PairMap(inp.dense), ScoreMap(inp.readable, inp.scores);
    var denser, higher := (x: Id, y: Id) => DenserThan(dense, x, y), (x: Id, y: Id) => Or0(lexical, x) > Or0(lexical, y);
    var denseFirst, lexicalFirst := DenseFirst(inp), LexicalFirst(inp);
    forall x, y ensures denser(x, y) == denseFirst(x, y) && higher(x, y) == lexicalFirst(x, y) {
      DenseScores(inp, x);
      DenseScores(inp, y);
      LexicalIsOr0(inp, x);
      LexicalIsOr0(inp, y);
    }
    SameSort(ids, denser, denseFirst);
    SameSort(ids, higher, lexicalFirst);
  }

  /** The first list holds the ids of low dense rank, each at its rank; the rest the other ids of
      low lexical rank, by that rank. */
  ghost predicate TwoLists(inp: Inputs, ids: seq<string>, a: seq<string>, rest: seq<string>) {
    var end := SliceEnd(inp.topc, |ids|);
    && (forall p :: 0 <= p < |a| ==> RankIn(ids, DenseFirst(inp), a[p]) == p < end)
    && (forall p :: 0 <= p < |rest| ==> RankIn(ids, DenseFirst(inp), rest[p]) >= end)
    && forall p, q :: 0 <= p < q < |rest| ==> RankIn(ids, LexicalFirst(inp), rest[p]) < RankIn(ids, LexicalFirst(inp), rest[q])
  }

  lemma AppearInOrder(inp: Inputs, ids: seq<string>, a: seq<string>, rest: seq<string>, p: nat, q: nat)
    requires TwoLists(inp, ids, a, rest) && p < q < |a + rest|
    ensures Appearance(inp, ids, (a + rest)[p]) < Appearance(inp, ids, (a + rest)[q])
  {
  }

  lemma ListsOfRanks(inp: Inputs, ids: seq<string>, a: seq<string>, b: seq<string>)
    requires Distinct(ids)
    requires a == Prefix(StableSort(ids, DenseFirst(inp)), inp.topc) && b == Prefix(StableSort(ids, LexicalFirst(inp)), inp.topc)
    ensures Distinct(a) && Distinct(b) && TwoLists(inp, ids, a, Filter(b, NotIn(a)))
    ensures forall x :: x in a || x in b <==> IsRanked(inp, ids, x)
  {
    DenseFirstIsWeak(inp);
    SliceRanks(ids, DenseFirst(inp), inp.topc);
    SliceRanks(ids, LexicalFirst(inp), inp.topc);
    var rest := Filter(b, NotIn(a));
    var lower := (x: string, y: string) => RankIn(ids, LexicalFirst(inp), x) < RankIn(ids, LexicalFirst(inp), y);
    assert Pairwise(b, lower);
    FilterPairwise(b, NotIn(a), lower);
    forall p, q | 0 <= p < q < |rest|
      ensures RankIn(ids, LexicalFirst(inp), rest[p]) < RankIn(ids, LexicalFirst(inp), rest[q])
    {
      assert lower(rest[p], rest[q]);
    }
    forall p | 0 <= p < |rest| ensures RankIn(ids, DenseFirst(inp), rest[p]) >= SliceEnd(inp.topc, |ids|) {
      assert rest[p] in rest;
    }
    forall p | 0 <= p < |a| ensures RankIn(ids, DenseFirst(inp), a[p]) < SliceEnd(inp.topc, |ids|) { assert a[p] in a; }
  }

  /** The union of the two rankings in the order of appearance. */
  lemma UnionAppears(inp: Inputs, ids: seq<string>, a: seq<string>, b: seq<string>)
    requires Distinct(ids)
    requires a == Prefix(StableSort(ids, DenseFirst(inp)), inp.topc) && b == Prefix(StableSort(ids, LexicalFirst(inp)), inp.topc)
    ensures Distinct(Dedupe(a + b)) && forall x :: x in Dedupe(a + b) <==> IsRanked(inp, ids, x)
    ensures Appearing(inp, ids, Dedupe(a + b))
  {
    ListsOfRanks(inp, ids, a, b);
    DedupeAfter(a, b);
    DedupeKeepsMembers(a + b);
    var rest := Filter(b, NotIn(a));
    forall p, q | 0 <= p < q < |a + rest|
      ensures Appearance(inp, ids, (a + rest)[p]) < Appearance(inp, ids, (a + rest)[q])
    {
      AppearInOrder(inp, ids, a, rest, p, q);
    }
  }

  ghost predicate Appearing(inp: Inputs, ids: seq<string>, union: seq<string>) {
    forall p, q :: 0 <= p < q < |union| ==> Appearance(inp, ids, union[p]) < Appearance(inp, ids, union[q])
  }

  lemma ShortlistMeans(inp: Inputs, ids: seq<string>)
    requires inp.Valid() && Distinct(ids)
    ensures IsShortlist(inp, ids, Shortlist(ids, PairMap(inp.dense), ScoreMap(inp.readable, inp.scores), inp.topc))
    ensures forall x :: x in ids ==>
      Fused(DenseTop(ids, PairMap(inp.dense), inp.topc), LexicalTop(ids, ScoreMap(inp.readable, inp.scores), inp.topc), x)
      == RrfOf(inp, ids, x)
  {
    var a, b := DenseTop(ids, PairMap(inp.dense), inp.topc), LexicalTop(ids, ScoreMap(inp.readable, inp.scores), inp.topc);
    SameTops(inp, ids);
    DenseFirstIsWeak(inp);
    forall x | x in ids ensures Fused(a, b, x) == RrfOf(inp, ids, x) {
      ShareIsWorth(ids, DenseFirst(inp), inp.topc, x);
      ShareIsWorth(ids, LexicalFirst(inp), inp.topc, x);
    }
    UnionAppears(inp, ids, a, b);
    BestOfUnion(inp, ids, a, b);
  }

  lemma SortedByRrf(inp: Inputs, ids: seq<string>, union: seq<string>, higher: (string, string) -> bool)
    requires Distinct(union) && Appearing(inp, ids, union)
    requires forall x, y :: x in union && y in union ==> (higher(x, y) <==> RrfOf(inp, ids, x) > RrfOf(inp, ids, y))
    requires WeakOrder(higher)
    ensures Pairwise(StableSort(union, higher), FusedBefore(inp, ids))
  {
    SortedStably(union, higher);
    SortKeepsMembers(union, higher);
    var sorted, before := StableSort(union, higher), FusedBefore(inp, ids);
    forall p, q | 0 <= p < q < |sorted| ensures before(sorted[p], sorted[q]) {
      assert sorted[p] in union && sorted[q] in union;
      assert StablyBefore(union, higher, sorted[p], sorted[q]);
    }
  }

  /** A slice of an ordered list is in order, and what is cut off comes behind it. */
  lemma SliceInOrder(sorted: seq<string>, rel: (string, string) -> bool, n: int)
    requires Pairwise(sorted, rel) && Distinct(sorted)
    ensures var short := Prefix(sorted, n);
      && Distinct(short) && Pairwise(short, rel) && |short| == SliceEnd(n, |sorted|)
      && (forall x :: x in short ==> x in sorted)
      && forall x, y :: x in sorted && x !in short && y in short ==> rel(y, x)
  {
    var short := Prefix(sorted, n);
    forall x, y | x in sorted && x !in short && y in short ensures rel(y, x) {
      var q :| 0 <= q < |sorted| && sorted[q] == x;
      var p :| 0 <= p < |short| && short[p] == y;
      assert sorted[p] == y && p < q;
    }
  }

  lemma BestOfUnion(inp: Inputs, ids: seq<string>, a: seq<string>, b: seq<string>)
    requires forall x :: x in ids ==> Fused(a, b, x) == RrfOf(inp, ids, x)
    requires Distinct(Dedupe(a + b)) && (forall x :: x in Dedupe(a + b) <==> IsRanked(inp, ids, x))
    requires Appearing(inp, ids, Dedupe(a + b))
    ensures IsShortlist(inp, ids, Prefix(StableSort(Dedupe(a + b), (x: Id, y: Id) => Fused(a, b, x) > Fused(a, b, y)), inp.topc))
  {
    var union, higher := Dedupe(a + b), (x: Id, y: Id) => Fused(a, b, x) > Fused(a, b, y);
    SortedByRrf(inp, ids, union, higher);
    SortKeepsMembers(union, higher);
    SortKeepsDistinct(union, higher);
    SortKeepsAll(union, higher);
    RankedCount(inp, ids, union);
    SliceInOrder(StableSort(union, higher), FusedBefore(inp, ids), inp.topc);
  }

  lemma RankedCount(inp: Inputs, ids: seq<string>, union: seq<string>)
    requires Distinct(union) && forall x :: x in union <==> IsRanked(inp, ids, x)
    ensures |set x | x in ids && IsRanked(inp, ids, x)| == |union|
  {
    assert (set x | x in ids && IsRanked(inp, ids, x)) == Elements(union);
    DistinctSize(union);
  }

  // -- Reranking --------------------------------------------------------------------------------------

  /** What the reranker is shown of each short-listed row. */
  ghost predicate IsBatch(inp: Inputs, texts: map<string, string>, short: seq<string>, batch: seq<Candidate>) {
    && |batch| == |short|
    && forall i :: 0 <= i < |short| ==>
         && short[i] in texts && RowOf(inp.visible, short[i]).Some?
         && batch[i] == Candidate(short[i], texts[short[i]], RowOf(inp.visible, short[i]).value.labels)
  }

  function RerankScore(short: seq<string>, scores: seq<real>, id: string): real {
    if id in short && |scores| == |short| then scores[IndexOf(short, id)] else 0.0
  }

  /** By reranker score; ties, when any candidate has a family, by precedence and id. */
  function RerankedAbove(inp: Inputs, ids: seq<string>, short: seq<string>, scores: seq<real>): (string, string) -> bool {
    (a: string, b: string) =>
      || RerankScore(short, scores, a) > RerankScore(short, scores, b)
      || (RerankScore(short, scores, a) == RerankScore(short, scores, b)
          && (AnyFamily(inp.visible, ids) ==> TieBefore(inp.visible, ids, a, b)))
  }

  function HybridSignals(fuser: Fuser, inp: Inputs, ids: seq<string>, short: seq<string>, scores: seq<real>): string -> Base {
    (id: string) => Base(
      RerankScore(short, scores, id), fuser.round(DenseOr0(inp, id)), fuser.round(inp.Lexical(id)),
      fuser.round(RrfOf(inp, ids, id)))
  }

  /** The reranked short list of the candidates. */
  ghost predicate HybridRanking(
    fuser: Fuser, inp: Inputs, limit: int, ids: seq<string>, short: seq<string>, scores: seq<real>, ranked: seq<Ranked>)
  {
    Collapses(
      ranked, short, FamilyMap(inp.visible, ids), limit, HybridSignals(fuser, inp, ids, short, scores),
      RerankedAbove(inp, ids, short, scores))
  }

  lemma BatchIsShown(inp: Inputs, texts: map<string, string>, ids: seq<string>, short: seq<string>)
    requires inp.Valid() && Distinct(ids) && (forall x :: x in short ==> x in ids)
    requires forall x :: x in ids ==> x in texts && x in Ids(inp.visible)
    ensures IsBatch(inp, texts, short, seq(|short|, i requires 0 <= i < |short| => TextOf(Candidates(inp.visible, texts, ids), short[i])))
  {
    forall i | 0 <= i < |short|
      ensures TextOf(Candidates(inp.visible, texts, ids), short[i]) ==
        Candidate(short[i], texts[short[i]], RowOf(inp.visible, short[i]).value.labels)
    {
      assert short[i] in short;
      CandidateIsFound(inp.visible, texts, ids, short[i]);
      MetaOfIsRow(inp.visible, short[i]);
    }
  }

  lemma {:induction false} CandidateIsFound(visible: seq<Meta>, texts: map<string, string>, ids: seq<string>, id: string)
    requires id in ids
    ensures TextOf(Candidates(visible, texts, ids), id) == Candidate(id, IndexText(texts, id), LabelsOf(visible, id))
  {
    var init := ids[..|ids| - 1];
    var all := Candidates(visible, texts, ids);
    assert all[..|all| - 1] == Candidates(visible, texts, init);
    if ids[|ids| - 1] != id { CandidateIsFound(visible, texts, init, id); }
  }

  // -- The order of the short list ------------------------------------------------------------------

  lemma RerankScoreAt(short: seq<string>, scores: seq<real>, id: string)
    requires Distinct(short) && |scores| == |short|
    ensures Or0(ScoreMap(short, scores), id) == RerankScore(short, scores, id)
  {
    if id in short { ScoreMapAt(short, scores, IndexOf(short, id)); } else { NoScore(short, scores, id); }
  }

  lemma ArrangedIsAbove(fuser: Fuser, inp: Inputs, ids: seq<string>, short: seq<string>, scores: seq<real>, m: Mirrors)
    requires |short| == |scores| && IsSortPermutation(scores, fuser.argsort(scores)) && Distinct(short)
    requires MirrorsAre(inp.visible, ids, m) && forall x :: x in short ==> x in ids
    ensures Pairwise(Arranged(fuser, short, scores, m), RerankedAbove(inp, ids, short, scores))
    ensures Distinct(Arranged(fuser, short, scores, m))
    ensures forall x :: x in Arranged(fuser, short, scores, m) <==> x in short
  {
    ArrangedIsDistinct(fuser, short, scores, m);
    forall id ensures Or0(ScoreMap(short, scores), id) == RerankScore(short, scores, id) { RerankScoreAt(short, scores, id); }
    if m.NoMirrors? {
      ArgsortIsAbove(fuser, inp, ids, short, scores);
    } else {
      BetterSorts(short, ScoreMap(short, scores), m);
      var order, above := Arranged(fuser, short, scores, m), RerankedAbove(inp, ids, short, scores);
      forall p, q | 0 <= p < q < |order| ensures above(order[p], order[q]) {
        assert order[p] in short && order[q] in short && Better(ScoreMap(short, scores), m, order[p], order[q]);
      }
    }
  }

  lemma ArgsortIsAbove(fuser: Fuser, inp: Inputs, ids: seq<string>, short: seq<string>, scores: seq<real>)
    requires |short| == |scores| && IsSortPermutation(scores, fuser.argsort(scores)) && Distinct(short)
    requires !AnyFamily(inp.visible, ids)
    ensures Pairwise(Arranged(fuser, short, scores, NoMirrors), RerankedAbove(inp, ids, short, scores))
    ensures forall x :: x in Arranged(fuser, short, scores, NoMirrors) <==> x in short
  {
    var places := fuser.argsort(scores);
    var order := Arranged(fuser, short, scores, NoMirrors);
    PermutationCovers(places, |short|);
    forall i | 0 <= i < |short| ensures RerankScore(short, scores, short[i]) == scores[i] { IndexOfDistinct(short, i); }
    forall x | x in short ensures x in order {
      var i := IndexOf(short, x);
      assert i in places;
      var p :| 0 <= p < |places| && places[p] == i;
      assert order[p] == x;
    }
  }

  /** What fusing starts from: the short list and what the reranker is shown. */
  ghost predicate Shortlisted(
    inp: Inputs, texts: map<string, string>, ids: seq<string>, short: seq<string>, batch: seq<Candidate>)
  {
    IsShortlist(inp, ids, short) && IsBatch(inp, texts, short, batch)
  }

  /** A hybrid ranking of the short list, or none when the reranker's answer is refused. */
  ghost predicate RankedOrRefused(
    fuser: Fuser, inp: Inputs, limit: int, ids: seq<string>, short: seq<string>, scores: Option<seq<real>>,
    ranked: Option<seq<Ranked>>)
  {
    && (ranked.None? <==> scores.None?)
    && (scores.Some? ==> |scores.value| == |short| && HybridRanking(fuser, inp, limit, ids, short, scores.value, ranked.value))
  }

  /** Fusing and reranking the candidates. */
  lemma FusedRankingIs(
    fuser: Fuser, inp: Inputs, texts: map<string, string>, ids: seq<string>, cue: string, limit: int, context: string)
    returns (short: seq<string>, batch: seq<Candidate>)
    requires fuser.Valid() && inp.Valid() && Distinct(ids) && ids != []
    requires forall x :: x in ids ==> x in texts && x in Ids(inp.visible)
    ensures Shortlisted(inp, texts, ids, short, batch)
    ensures RankedOrRefused(
      fuser, inp, limit, ids, short, fuser.reranker.Scores(cue, batch, context),
      FusedRanking(
        fuser, cue, Candidates(inp.visible, texts, ids), PairMap(inp.dense), ScoreMap(inp.readable, inp.scores), limit,
        inp.topc, MirrorsOf(inp.visible, ids), context))
  {
    var dense, lexical, m := PairMap(inp.dense), ScoreMap(inp.readable, inp.scores), MirrorsOf(inp.visible, ids);
    var candidates := Candidates(inp.visible, texts, ids);
    assert IdsOf(candidates) == ids;
    short := Shortlist(ids, dense, lexical, inp.topc);
    batch := seq(|short|, i requires 0 <= i < |short| => TextOf(candidates, short[i]));
    ShortlistMeans(inp, ids);
    BatchIsShown(inp, texts, ids, short);
    var scores := fuser.reranker.Scores(cue, batch, context);
    if scores.Some? {
      var a, b := DenseTop(ids, dense, inp.topc), LexicalTop(ids, lexical, inp.topc);
      var base := (id: Id) => Base(
        Or0(ScoreMap(short, scores.value), id), fuser.round(Or0(dense, id)), fuser.round(Or0(lexical, id)),
        fuser.round(Fused(a, b, id)));
      SignalsAre(fuser, inp, ids, short, scores.value, base);
      RankingIsHybrid(fuser, inp, ids, short, scores.value, limit, base);
    }
  }

  lemma SignalsAre(fuser: Fuser, inp: Inputs, ids: seq<string>, short: seq<string>, scores: seq<real>, base: string -> Base)
    requires inp.Valid() && Distinct(ids) && IsShortlist(inp, ids, short) && |scores| == |short|
    requires forall id :: base(id) == Base(
      Or0(ScoreMap(short, scores), id), fuser.round(Or0(PairMap(inp.dense), id)),
      fuser.round(Or0(ScoreMap(inp.readable, inp.scores), id)),
      fuser.round(Fused(
        DenseTop(ids, PairMap(inp.dense), inp.topc), LexicalTop(ids, ScoreMap(inp.readable, inp.scores), inp.topc), id)))
    ensures forall id :: id in short ==> base(id) == HybridSignals(fuser, inp, ids, short, scores)(id)
  {
    ShortlistMeans(inp, ids);
    forall id | id in short ensures base(id) == HybridSignals(fuser, inp, ids, short, scores)(id) {
      RerankScoreAt(short, scores, id);
      DenseScores(inp, id);
      LexicalIsOr0(inp, id);
    }
  }

  lemma RankingIsHybrid(
    fuser: Fuser, inp: Inputs, ids: seq<string>, short: seq<string>, scores: seq<real>, limit: int, base: string -> Base)
    requires fuser.Valid() && inp.Valid() && Distinct(ids) && |scores| == |short| && IsShortlist(inp, ids, short)
    requires forall id :: id in short ==> base(id) == HybridSignals(fuser, inp, ids, short, scores)(id)
    ensures IsSortPermutation(scores, fuser.argsort(scores))
    ensures var m := MirrorsOf(inp.visible, ids);
      HybridRanking(
        fuser, inp, limit, ids, short, scores,
        CollapsedRanking(Arranged(fuser, short, scores, m), FamiliesOf(m), limit, base))
  {
    var m := MirrorsOf(inp.visible, ids);
    var signals, above := HybridSignals(fuser, inp, ids, short, scores), RerankedAbove(inp, ids, short, scores);
    assert IsSortPermutation(scores, fuser.argsort(scores));
    MirrorsMean(inp.visible, ids);
    ArrangedIsAbove(fuser, inp, ids, short, scores, m);
    var order := Arranged(fuser, short, scores, m);
    var ranked := CollapsedRanking(order, FamiliesOf(m), limit, base);
    CollapsingDelivers(order, FamiliesOf(m), limit, base, above);
    SameMembersCollapse(ranked, order, short, FamiliesOf(m), limit, base, above);
    SameSignalsCollapse(ranked, short, FamiliesOf(m), limit, base, signals, above);
  }

  lemma SameSignalsCollapse(
    ranked: seq<Ranked>, order: seq<string>, fam: Families, k: int, base: string -> Base, signals: string -> Base,
    rel: (string, string) -> bool)
    requires Collapses(ranked, order, fam, k, base, rel) && forall id :: id in order ==> base(id) == signals(id)
    ensures Collapses(ranked, order, fam, k, signals, rel)
  {
    forall p | 0 <= p < |ranked| ensures EntryOk(ranked[p], order, fam, signals, rel) {
      assert EntryOk(ranked[p], order, fam, base, rel);
    }
  }
}
