/** What a lexical recall returns, said without its steps: the candidates by falling score, one of
    each mirror family, up to the limit. */
module LexicalRecall {
  import opened Common
  import opened VectorSearch
  import opened Fusion
  import opened StableOrder
  import opened Collapsing
  import opened Recall
  import opened CandidateRows

  // -- Mirror families ---------------------------------------------------------------------------

  function RowOf(visible: seq<Meta>, id: string): Option<Meta> {
    if id in Ids(visible) then Some(visible[IndexOf(Ids(visible), id)]) else None
  }

  function FamilyOf(visible: seq<Meta>, id: string): Option<(string, nat)> {
    if RowOf(visible, id).Some? then RowOf(visible, id).value.family else None
  }

  /** The mirror families of some rows. */
  function FamilyMap(visible: seq<Meta>, ids: seq<string>): Families {
    map id | id in ids && FamilyOf(visible, id).Some? :: FamilyOf(visible, id).value.0
  }

  predicate AnyFamily(visible: seq<Meta>, ids: seq<string>) {
    exists id :: id in ids && FamilyOf(visible, id).Some?
  }

  /** Rows outside every family rank between the two sides of a mirror. */
  function PrecedenceOf(visible: seq<Meta>, id: string): nat {
    if FamilyOf(visible, id).Some? then FamilyOf(visible, id).value.1 else 2
  }

  lemma {:induction false} MetaOfIsRow(visible: seq<Meta>, id: string)
    requires Distinct(Ids(visible))
    ensures MetaOf(visible, id) == RowOf(visible, id)
  {
    if visible != [] {
      var init, last := visible[..|visible| - 1], visible[|visible| - 1];
      var n := |init|;
      assert Ids(visible)[n] == last.id;
      assert forall i :: 0 <= i < n ==> Ids(init)[i] == Ids(visible)[i];
      MetaOfIsRow(init, id);
      if id == last.id {
        IndexOfDistinct(Ids(visible), n);
      } else if id in Ids(init) {
        IndexOfDistinct(Ids(visible), IndexOf(Ids(init), id));
        assert Ids(visible)[IndexOf(Ids(init), id)] == id;
      } else {
        assert id !in Ids(visible);
      }
    }
  }

  /** Families and precedence as recall collects them. */
  ghost predicate MirrorsAre(visible: seq<Meta>, ids: seq<string>, m: Mirrors) {
    && (m.Mirrors? <==> AnyFamily(visible, ids)) && FamiliesOf(m) == FamilyMap(visible, ids)
    && forall id :: id in ids ==> (m.Mirrors? ==> Precedence(m, id) == PrecedenceOf(visible, id))
  }

  /** The precedence map names exactly the ids that have a family. */
  ghost predicate PrecedencesAre(visible: seq<Meta>, ids: seq<string>, precedence: map<Id, nat>) {
    && (forall id :: id in precedence <==> id in ids && FamilyOf(visible, id).Some?)
    && (forall id :: id in precedence ==> precedence[id] == FamilyOf(visible, id).value.1)
  }

  function PrecedencesOf(m: Mirrors): map<Id, nat> {
    if m.NoMirrors? then map[] else m.precedence
  }

  lemma FamiliesGrow(visible: seq<Meta>, init: seq<string>, last: string)
    ensures AnyFamily(visible, init + [last]) <==> AnyFamily(visible, init) || FamilyOf(visible, last).Some?
    ensures FamilyMap(visible, init + [last]) ==
      if FamilyOf(visible, last).Some? then FamilyMap(visible, init)[last := FamilyOf(visible, last).value.0]
      else FamilyMap(visible, init)
  {
    assert last in init + [last];
    if AnyFamily(visible, init) {
      var id :| id in init && FamilyOf(visible, id).Some?;
      assert id in init + [last];
    }
  }

  lemma MirrorsOfNext(visible: seq<Meta>, init: seq<string>, last: string)
    requires Distinct(Ids(visible))
    ensures var before, after, f := MirrorsOf(visible, init), MirrorsOf(visible, init + [last]), FamilyOf(visible, last);
      if f.None? then after == before
      else
        && after.Mirrors? && after.fam == FamiliesOf(before)[last := f.value.0]
        && after.precedence == PrecedencesOf(before)[last := f.value.1]
  {
    assert (init + [last])[..|init|] == init;
    MetaOfIsRow(visible, last);
  }

  lemma {:induction false} CollectedMirrors(visible: seq<Meta>, ids: seq<string>)
    requires Distinct(Ids(visible))
    ensures MirrorsOf(visible, ids).Mirrors? <==> AnyFamily(visible, ids)
    ensures FamiliesOf(MirrorsOf(visible, ids)) == FamilyMap(visible, ids)
    ensures PrecedencesAre(visible, ids, PrecedencesOf(MirrorsOf(visible, ids)))
  {
    if ids != [] {
      var init, last := ids[..|ids| - 1], ids[|ids| - 1];
      assert ids == init + [last];
      CollectedMirrors(visible, init);
      FamiliesGrow(visible, init, last);
      MirrorsOfNext(visible, init, last);
    }
  }

  lemma MirrorsMean(visible: seq<Meta>, ids: seq<string>)
    requires Distinct(Ids(visible))
    ensures MirrorsAre(visible, ids, MirrorsOf(visible, ids))
  {
    CollectedMirrors(visible, ids);
  }

  // -- The order ---------------------------------------------------------------------------------

  /** Among equal scores: by precedence and id when any candidate has a family, else by place. */
  predicate TieBefore(visible: seq<Meta>, ids: seq<string>, a: string, b: string) {
    if AnyFamily(visible, ids) then
      PrecedenceOf(visible, a) < PrecedenceOf(visible, b)
      || (PrecedenceOf(visible, a) == PrecedenceOf(visible, b) && IdBefore(a, b))
    else IndexOf(ids, a) < IndexOf(ids, b)
  }

  function LexicallyAbove(inp: Inputs, ids: seq<string>): (string, string) -> bool {
    (a: string, b: string) =>
      inp.Lexical(a) > inp.Lexical(b) || (inp.Lexical(a) == inp.Lexical(b) && TieBefore(inp.visible, ids, a, b))
  }

  lemma LexicalOrderIsAbove(inp: Inputs, ids: seq<string>)
    requires inp.Valid() && Distinct(ids)
    ensures var order := LexicalOrder(ids, ScoreMap(inp.readable, inp.scores), MirrorsOf(inp.visible, ids));
      Distinct(order) && Pairwise(order, LexicallyAbove(inp, ids)) && forall id :: id in order <==> id in ids
  {
    var lexical, m := ScoreMap(inp.readable, inp.scores), MirrorsOf(inp.visible, ids);
    MirrorsMean(inp.visible, ids);
    forall id ensures Or0(lexical, id) == inp.Lexical(id) { LexicalIsOr0(inp, id); }
    if m.NoMirrors? {
      PlainOrderIsAbove(inp, ids, lexical);
    } else {
      MirrorOrderIsAbove(inp, ids, lexical, m);
    }
  }

  lemma PlainOrderIsAbove(inp: Inputs, ids: seq<string>, lexical: map<string, real>)
    requires Distinct(ids) && !AnyFamily(inp.visible, ids) && forall id :: Or0(lexical, id) == inp.Lexical(id)
    ensures var order := LexicalOrder(ids, lexical, NoMirrors);
      Distinct(order) && Pairwise(order, LexicallyAbove(inp, ids)) && forall id :: id in order <==> id in ids
  {
    var higher := (x: string, y: string) => Or0(lexical, x) > Or0(lexical, y);
    SortedStably(ids, higher);
    SortKeepsMembers(ids, higher);
    SortKeepsDistinct(ids, higher);
    var order := StableSort(ids, higher);
    forall p, q | 0 <= p < q < |order| ensures LexicallyAbove(inp, ids)(order[p], order[q]) {
      assert StablyBefore(ids, higher, order[p], order[q]);
    }
  }

  lemma MirrorOrderIsAbove(inp: Inputs, ids: seq<string>, lexical: map<string, real>, m: Mirrors)
    requires Distinct(ids) && m.Mirrors? && MirrorsAre(inp.visible, ids, m)
    requires forall id :: Or0(lexical, id) == inp.Lexical(id)
    ensures var order := LexicalOrder(ids, lexical, m);
      Distinct(order) && Pairwise(order, LexicallyAbove(inp, ids)) && forall id :: id in order <==> id in ids
  {
    BetterSorts(ids, lexical, m);
    var order := LexicalOrder(ids, lexical, m);
    forall p, q | 0 <= p < q < |order| ensures LexicallyAbove(inp, ids)(order[p], order[q]) {
      assert order[p] in ids && order[q] in ids && Better(lexical, m, order[p], order[q]);
    }
  }

  /** Sorting distinct ids by score, precedence and id leaves no tie. */
  lemma BetterSorts(ids: seq<string>, scores: map<string, real>, m: Mirrors)
    requires Distinct(ids)
    ensures var order := StableSort(ids, (x: string, y: string) => Better(scores, m, x, y));
      && Distinct(order) && (forall p, q :: 0 <= p < q < |order| ==> Better(scores, m, order[p], order[q]))
      && forall id :: id in order <==> id in ids
  {
    var better := (x: string, y: string) => Better(scores, m, x, y);
    forall x, y, z
      ensures better(x, y) ==> !better(y, x)
      ensures !better(x, y) && !better(y, z) ==> !better(x, z)
    {
      BetterComposes(scores, m, x, y, z);
    }
    SortSorts(ids, better);
    SortKeepsMembers(ids, better);
    SortKeepsDistinct(ids, better);
    var order := StableSort(ids, better);
    forall p, q | 0 <= p < q < |order| ensures Better(scores, m, order[p], order[q]) {
      IdsAreOrdered(order[p], order[q]);
      assert !better(order[q], order[p]);
    }
  }

  // -- The hits -----------------------------------------------------------------------------------

  function DenseOr0(inp: Inputs, id: string): real {
    if inp.DenseScore(id).Some? then inp.DenseScore(id).value else 0.0
  }

  function LexicalSignals(fuser: Fuser, inp: Inputs): string -> Base {
    (id: string) => Base(inp.Lexical(id), fuser.round(DenseOr0(inp, id)), fuser.round(inp.Lexical(id)), 0.0)
  }

  lemma {:induction false} DenseIsOr0(dense: seq<(string, real)>, id: string)
    requires Distinct(FoundIds(dense))
    ensures Or0(PairMap(dense), id) == if id in FoundIds(dense) then dense[IndexOf(FoundIds(dense), id)].1 else 0.0
    ensures id in PairMap(dense) <==> id in FoundIds(dense)
  {
    if dense != [] {
      var init, last := dense[..|dense| - 1], dense[|dense| - 1];
      var n := |init|;
      assert FoundIds(dense)[n] == last.0;
      assert forall i :: 0 <= i < n ==> FoundIds(init)[i] == FoundIds(dense)[i];
      DenseIsOr0(init, id);
      if id == last.0 {
        IndexOfDistinct(FoundIds(dense), n);
      } else if id in FoundIds(init) {
        assert FoundIds(dense)[IndexOf(FoundIds(init), id)] == id;
        IndexOfDistinct(FoundIds(dense), IndexOf(FoundIds(init), id));
      } else {
        assert id !in FoundIds(dense);
      }
    }
  }

  lemma DenseScores(inp: Inputs, id: string)
    requires inp.Valid()
    ensures Or0(PairMap(inp.dense), id) == DenseOr0(inp, id)
    ensures id in PairMap(inp.dense) <==> inp.DenseScore(id).Some?
    ensures inp.DenseScore(id).Some? ==> PairMap(inp.dense)[id] == inp.DenseScore(id).value
  {
    assert FoundIds(inp.dense) == inp.DenseIds();
    DenseIsOr0(inp.dense, id);
  }

  /** The entries of a ranking as hits. */
  predicate AreEntries(hits: seq<Found>, ranked: seq<Ranked>) {
    && |hits| == |ranked|
    && forall p :: 0 <= p < |ranked| ==> hits[p] == Found(ranked[p].id, ranked[p].base.score, ranked[p], p)
  }

  /** The ranking by lexical score, over its candidates. */
  ghost predicate LexicalRanking(fuser: Fuser, inp: Inputs, k: int, ids: seq<string>, ranked: seq<Ranked>) {
    && inp.AreCandidates(ids)
    && Collapses(ranked, ids, FamilyMap(inp.visible, ids), k, LexicalSignals(fuser, inp), LexicallyAbove(inp, ids))
  }

  lemma SameMembersCollapse(
    ranked: seq<Ranked>, order: seq<string>, ids: seq<string>, fam: Families, k: int, base: string -> Base,
    rel: (string, string) -> bool)
    requires Collapses(ranked, order, fam, k, base, rel) && forall id :: id in order <==> id in ids
    ensures Collapses(ranked, ids, fam, k, base, rel)
  {
    forall p | 0 <= p < |ranked| ensures EntryOk(ranked[p], ids, fam, base, rel) {
      assert EntryOk(ranked[p], order, fam, base, rel);
    }
    if ids != [] { assert ids[0] in order; }
  }

  /** A lexical recall lists exactly the candidates, by falling score, one of each family, each
      with its own signals; what is missing is noted on its family or behind a full list. */
  lemma LexicalHitsAre(fuser: Fuser, inp: Inputs, texts: map<string, string>, query: Query)
    requires fuser.Valid() && inp.Valid() && query.lexicalOnly && query.topc == inp.topc
    ensures exists hits, ids, ranked ::
      && HitsOf(fuser, inp.visible, texts, inp.readable, inp.scores, inp.dense, query) == Some(hits)
      && LexicalRanking(fuser, inp, query.k, ids, ranked) && AreEntries(hits, ranked)
  {
    var lexical, denseMap := ScoreMap(inp.readable, inp.scores), PairMap(inp.dense);
    var ids := CandidateIds(inp.dense, inp.readable, lexical, query.topc);
    var m := MirrorsOf(inp.visible, ids);
    var order := LexicalOrder(ids, lexical, m);
    CandidatesMean(inp);
    LexicalOrderIsAbove(inp, ids);
    MirrorsMean(inp.visible, ids);
    var base, signals := LexicalBase(fuser, denseMap, lexical), LexicalSignals(fuser, inp);
    forall id ensures base(id) == signals(id) {
      LexicalIsOr0(inp, id);
      DenseScores(inp, id);
    }
    SameListing(order, FamiliesOf(m), query.k, base, signals);
    var ranked := CollapsedRanking(order, FamiliesOf(m), query.k, signals);
    CollapsingDelivers(order, FamiliesOf(m), query.k, signals, LexicallyAbove(inp, ids));
    SameMembersCollapse(ranked, order, ids, FamiliesOf(m), query.k, signals, LexicallyAbove(inp, ids));
    assert LexicalRanking(fuser, inp, query.k, ids, ranked);
    assert AreEntries(Plain(ranked), ranked);
  }
}
