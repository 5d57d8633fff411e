/** Whole recalls, said without their steps: which rows come back, in what order, with what
    signals, and why a readable row does not. */
module RecallCoverage {
  import opened Common
  import opened Policy
  import opened VectorSearch
  import opened TextCaches
  import Bm25
  import opened Fusion
  import opened StableOrder
  import opened Collapsing
  import opened Recall
  import opened CandidateRows
  import opened LexicalRecall
  import opened HybridRecall
  import opened SearchMeaning

  // -- The hits of a hybrid recall -------------------------------------------------------------------

  /** How many entries reranking keeps: without typed scores the limit, else the larger of limit
      and candidates, but no more than `topc`. */
  function HybridLimit(query: Query, candidates: nat): int {
    var most := if candidates <= query.k then query.k else candidates;
    if query.adjust.None? then query.k else if most < query.topc then most else query.topc
  }

  predicate TypedAbove(a: (real, string), b: (real, string)) {
    a.0 > b.0 || (a.0 == b.0 && IdBefore(a.1, b.1))
  }

  function TypedScore(inp: Inputs, adjust: (real, Meta) -> real, r: Ranked): real {
    if RowOf(inp.visible, r.id).Some? then adjust(r.base.score, RowOf(inp.visible, r.id).value) else r.base.score
  }

  /** A hit under typed scores: an entry with its score recomputed from its row, at its new place. */
  ghost predicate IsTyped(inp: Inputs, adjust: (real, Meta) -> real, ranked: seq<Ranked>, hit: Found, place: nat) {
    && hit.finalRank == place && hit.entry in ranked && hit.id == hit.entry.id
    && hit.score == TypedScore(inp, adjust, hit.entry)
  }

  /** The best entries by typed score, ties by id. */
  ghost predicate AreTyped(inp: Inputs, adjust: (real, Meta) -> real, ranked: seq<Ranked>, k: int, hits: seq<Found>) {
    && |hits| == SliceEnd(k, |ranked|)
    && (forall i :: 0 <= i < |hits| ==> IsTyped(inp, adjust, ranked, hits[i], i))
    && (forall i, j :: 0 <= i < j < |hits| ==> TypedAbove((hits[i].score, hits[i].id), (hits[j].score, hits[j].id)))
    && forall r, i :: r in ranked && (forall j :: 0 <= j < |hits| ==> hits[j].entry != r) && 0 <= i < |hits| ==>
         TypedAbove((hits[i].score, hits[i].id), (TypedScore(inp, adjust, r), r.id))
  }

  /** The hits of a hybrid recall: those of the reranked short list, by its scores or by typed ones. */
  ghost predicate HybridHits(
    fuser: Fuser, inp: Inputs, texts: map<string, string>, query: Query, ids: seq<string>, short: seq<string>,
    batch: seq<Candidate>, hits: Option<seq<Found>>)
  {
    && inp.AreCandidates(ids) && Shortlisted(inp, texts, ids, short, batch)
    && var scores := fuser.reranker.Scores(query.cue, batch, query.context);
       && (hits.None? <==> scores.None?)
       && (hits.Some? ==>
             && |scores.value| == |short|
             && exists ranked ::
                  && HybridRanking(fuser, inp, HybridLimit(query, |ids|), ids, short, scores.value, ranked)
                  && AreHits(inp, query, ranked, hits.value))
  }

  ghost predicate AreHits(inp: Inputs, query: Query, ranked: seq<Ranked>, hits: seq<Found>) {
    if query.adjust.None? then AreEntries(hits, ranked) else AreTyped(inp, query.adjust.value, ranked, query.k, hits)
  }

  lemma AdjustedIsTyped(inp: Inputs, adjust: (real, Meta) -> real, ranked: seq<Ranked>)
    requires inp.Valid()
    ensures var scored := Rescored(adjust, inp.visible, ranked);
      |scored| == |ranked| && forall p :: 0 <= p < |ranked| ==>
        scored[p] == Found(ranked[p].id, TypedScore(inp, adjust, ranked[p]), ranked[p], 0)
  {
    forall p | 0 <= p < |ranked| ensures AdjustedScore(adjust, inp.visible, ranked[p]) == TypedScore(inp, adjust, ranked[p]) {
      MetaOfIsRow(inp.visible, ranked[p].id);
    }
  }

  ghost predicate DistinctIds(ranked: seq<Ranked>) {
    forall p, q :: 0 <= p < q < |ranked| ==> ranked[p].id != ranked[q].id
  }

  lemma TypedSortOrders(scored: seq<Found>)
    requires forall i, j :: 0 <= i < j < |scored| ==> scored[i].id != scored[j].id
    ensures var sorted := TypedSort(scored);
      && |sorted| == |scored| && (forall x :: x in sorted <==> x in scored)
      && forall i, j :: 0 <= i < j < |sorted| ==> TypedAbove((sorted[i].score, sorted[i].id), (sorted[j].score, sorted[j].id))
  {
    SortedTyped(scored);
    SortKeepsAll(scored, (x: Found, y: Found) => TypedBefore(x, y));
    SortKeepsMembers(scored, (x: Found, y: Found) => TypedBefore(x, y));
  }

  lemma RetypedIsTyped(inp: Inputs, adjust: (real, Meta) -> real, ranked: seq<Ranked>, k: int)
    requires inp.Valid() && DistinctIds(ranked)
    ensures AreTyped(inp, adjust, ranked, k, Retyped(adjust, inp.visible, ranked, k))
  {
    var scored := Rescored(adjust, inp.visible, ranked);
    AdjustedIsTyped(inp, adjust, ranked);
    TypedSortOrders(scored);
    var sorted := TypedSort(scored);
    var hits := Retyped(adjust, inp.visible, ranked, k);
    forall i | 0 <= i < |hits| ensures IsTyped(inp, adjust, ranked, hits[i], i) {
      assert sorted[i] in scored;
      var p :| 0 <= p < |scored| && scored[p] == sorted[i];
      assert hits[i].entry == ranked[p];
    }
    forall r, i | r in ranked && (forall j :: 0 <= j < |hits| ==> hits[j].entry != r) && 0 <= i < |hits|
      ensures TypedAbove((hits[i].score, hits[i].id), (TypedScore(inp, adjust, r), r.id))
    {
      LeftOutIsBelow(inp, adjust, ranked, k, r, i);
    }
  }

  lemma LeftOutIsBelow(inp: Inputs, adjust: (real, Meta) -> real, ranked: seq<Ranked>, k: int, r: Ranked, i: nat)
    requires inp.Valid() && DistinctIds(ranked) && r in ranked
    requires var hits := Retyped(adjust, inp.visible, ranked, k);
      i < |hits| && forall j :: 0 <= j < |hits| ==> hits[j].entry != r
    ensures var hits := Retyped(adjust, inp.visible, ranked, k);
      TypedAbove((hits[i].score, hits[i].id), (TypedScore(inp, adjust, r), r.id))
  {
    var scored := Rescored(adjust, inp.visible, ranked);
    AdjustedIsTyped(inp, adjust, ranked);
    TypedSortOrders(scored);
    var sorted, hits := TypedSort(scored), Retyped(adjust, inp.visible, ranked, k);
    var p :| 0 <= p < |ranked| && ranked[p] == r;
    assert scored[p] in sorted;
    var j :| 0 <= j < |sorted| && sorted[j] == scored[p];
    assert forall h :: 0 <= h < |hits| ==> hits[h].entry == sorted[h].entry;
    assert j >= |hits|;
  }

  lemma LimitIsHybrid(query: Query, candidates: nat)
    ensures RerankLimit(query, candidates) == HybridLimit(query, candidates)
  {
  }

  /** A hybrid recall over any candidates. */
  lemma HybridHitsAre(fuser: Fuser, inp: Inputs, texts: map<string, string>, query: Query)
    returns (ids: seq<string>, short: seq<string>, batch: seq<Candidate>)
    requires fuser.Valid() && inp.Valid() && !query.lexicalOnly && query.topc == inp.topc
    requires forall id :: id in inp.readable ==> id in texts
    requires exists id :: inp.IsCandidate(id)
    ensures HybridHits(
      fuser, inp, texts, query, ids, short, batch,
      HitsOf(fuser, inp.visible, texts, inp.readable, inp.scores, inp.dense, query))
  {
    var lexical, dense := ScoreMap(inp.readable, inp.scores), PairMap(inp.dense);
    ids := CandidateIds(inp.dense, inp.readable, lexical, query.topc);
    CandidatesMean(inp);
    var limit := HybridLimit(query, |ids|);
    LimitIsHybrid(query, |ids|);
    short, batch := FusedRankingIs(fuser, inp, texts, ids, query.cue, limit, query.context);
    var ranked := FusedRanking(
      fuser, query.cue, Candidates(inp.visible, texts, ids), dense, lexical, limit, inp.topc, MirrorsOf(inp.visible, ids),
      query.context);
    if ranked.Some? {
      if query.adjust.None? {
        assert AreEntries(Plain(ranked.value), ranked.value);
      } else {
        RetypedIsTyped(inp, query.adjust.value, ranked.value, query.k);
      }
    }
  }

  /** Without candidates there is nothing to rank. */
  lemma NoCandidatesNoHits(fuser: Fuser, inp: Inputs, texts: map<string, string>, query: Query)
    requires fuser.Valid() && inp.Valid() && !query.lexicalOnly && query.topc == inp.topc
    requires forall id :: !inp.IsCandidate(id)
    ensures HitsOf(fuser, inp.visible, texts, inp.readable, inp.scores, inp.dense, query) == Some([])
  {
    var ids := CandidateIds(inp.dense, inp.readable, ScoreMap(inp.readable, inp.scores), query.topc);
    CandidatesMean(inp);
    HeadIsIn(ids);
    assert Candidates(inp.visible, texts, ids) == [];
    NothingRanked(fuser, inp, query);
  }

  lemma NothingRanked(fuser: Fuser, inp: Inputs, query: Query)
    ensures Plain([]) == []
    ensures query.adjust.Some? ==> Retyped(query.adjust.value, inp.visible, [], query.k) == []
  {
    if query.adjust.Some? { assert Rescored(query.adjust.value, inp.visible, []) == []; }
  }

  // -- Why a candidate is missing --------------------------------------------------------------------

  /** A hit, or noted under a hit of its family. */
  ghost predicate HitOrNoted(inp: Inputs, hits: seq<Found>, id: string) {
    exists p :: 0 <= p < |hits| && (hits[p].id == id || NotedUnderHit(inp, hits[p], id))
  }

  predicate NotedUnderHit(inp: Inputs, hit: Found, id: string) {
    && Notes(hit.entry, id) && FamilyOf(inp.visible, id).Some? && FamilyOf(inp.visible, hit.id).Some?
    && FamilyOf(inp.visible, id).value.0 == FamilyOf(inp.visible, hit.id).value.0
  }

  /** Some hit is this entry. */
  ghost predicate Carries(hits: seq<Found>, r: Ranked) {
    exists h :: 0 <= h < |hits| && hits[h].entry == r && hits[h].id == r.id
  }

  lemma AccountedIsHitOrNoted(
    inp: Inputs, ranked: seq<Ranked>, order: seq<string>, ids: seq<string>, k: int, base: string -> Base,
    rel: (string, string) -> bool, hits: seq<Found>, id: string)
    requires Collapses(ranked, order, FamilyMap(inp.visible, ids), k, base, rel) && id in order && |ranked| != k
    requires forall p :: 0 <= p < |ranked| ==> Carries(hits, ranked[p])
    ensures HitOrNoted(inp, hits, id)
  {
    assert Accounted(ranked, k, rel, id);
    var p :| 0 <= p < |ranked| && (ranked[p].id == id || Notes(ranked[p], id));
    assert EntryOk(ranked[p], order, FamilyMap(inp.visible, ids), base, rel);
    var h :| 0 <= h < |hits| && hits[h].entry == ranked[p] && hits[h].id == ranked[p].id;
    assert ranked[p].id == id || NotedUnderHit(inp, hits[h], id);
  }

  lemma LexicalRecallFinds(fuser: Fuser, inp: Inputs, texts: map<string, string>, query: Query, id: string)
    requires fuser.Valid() && inp.Valid() && query.lexicalOnly && query.topc == inp.topc && query.k >= 1
    requires inp.IsCandidate(id)
    ensures var hits := HitsOf(fuser, inp.visible, texts, inp.readable, inp.scores, inp.dense, query);
      hits.Some? && hits.value != [] && (|hits.value| < query.k ==> HitOrNoted(inp, hits.value, id))
  {
    LexicalHitsAre(fuser, inp, texts, query);
    var hits: seq<Found>, ids: seq<string>, ranked: seq<Ranked> :|
      && HitsOf(fuser, inp.visible, texts, inp.readable, inp.scores, inp.dense, query) == Some(hits)
      && LexicalRanking(fuser, inp, query.k, ids, ranked) && AreEntries(hits, ranked);
    assert id in ids;
    if |hits| < query.k {
      forall p | 0 <= p < |ranked| ensures Carries(hits, ranked[p]) {
        assert hits[p].entry == ranked[p];
      }
      AccountedIsHitOrNoted(
        inp, ranked, ids, ids, query.k, LexicalSignals(fuser, inp), LexicallyAbove(inp, ids), hits, id);
    }
  }

  /** The candidates of a recall. */
  function CandidateSet(inp: Inputs): set<string> {
    set id | id in inp.readable && inp.IsCandidate(id)
  }

  lemma CandidateCount(inp: Inputs, ids: seq<string>)
    requires inp.AreCandidates(ids)
    ensures |CandidateSet(inp)| == |ids|
  {
    assert CandidateSet(inp) == Elements(ids);
    DistinctSize(ids);
  }

  /** With no more candidates than `topc` the short list holds them all. */
  lemma ShortlistIsAll(inp: Inputs, ids: seq<string>, short: seq<string>)
    requires Distinct(ids) && IsShortlist(inp, ids, short) && |ids| <= inp.topc
    ensures forall id :: id in short <==> id in ids
    ensures |short| == |ids|
  {
    DenseFirstIsWeak(inp);
    forall id | id in ids ensures IsRanked(inp, ids, id) {
      StablePlace(ids, DenseFirst(inp), IndexOf(ids, id));
      SortKeepsAll(ids, DenseFirst(inp));
    }
    assert (set x | x in ids && IsRanked(inp, ids, x)) == Elements(ids);
    DistinctSize(ids);
    DistinctSize(short);
    assert Elements(short) <= Elements(ids);
    SubsetOfSameSize(Elements(short), Elements(ids));
    forall id ensures id in short <==> id in ids { assert id in Elements(short) <==> id in Elements(ids); }
  }

  lemma AllListed(ranked: seq<Ranked>, order: seq<string>, fam: Families, k: int, base: string -> Base, rel: (string, string) -> bool, id: string)
    requires Collapses(ranked, order, fam, k, base, rel) && |ranked| >= |order| && id in order
    ensures IsListed(ranked, id)
  {
    var listed := seq(|ranked|, i requires 0 <= i < |ranked| => ranked[i].id);
    assert Distinct(listed);
    DistinctSize(listed);
    forall x | x in listed ensures x in order {
      var p :| 0 <= p < |ranked| && listed[p] == x;
      assert EntryOk(ranked[p], order, fam, base, rel);
    }
    ElementsAtMost(order);
    SmallerSet(Elements(listed), Elements(order));
    SubsetOfSameSize(Elements(listed), Elements(order));
    assert id in Elements(order);
    var p :| 0 <= p < |listed| && listed[p] == id;
    assert ranked[p].id == id;
  }

  lemma {:induction false} ElementsAtMost<A>(s: seq<A>)
    ensures |Elements(s)| <= |s|
  {
    if s != [] {
      ElementsAtMost(s[..|s| - 1]);
      assert Elements(s) == Elements(s[..|s| - 1]) + {s[|s| - 1]};
    }
  }

  lemma TypedCarriesAll(inp: Inputs, adjust: (real, Meta) -> real, ranked: seq<Ranked>, k: int, hits: seq<Found>)
    requires AreTyped(inp, adjust, ranked, k, hits) && DistinctIds(ranked) && k > 0 && |hits| < k
    ensures forall p :: 0 <= p < |ranked| ==> Carries(hits, ranked[p])
  {
    assert |hits| == |ranked|;
    var entries := seq(|hits|, i requires 0 <= i < |hits| => hits[i].entry);
    forall i, j | 0 <= i < j < |entries| ensures entries[i] != entries[j] {
      var a, b := hits[i], hits[j];
      assert IsTyped(inp, adjust, ranked, a, i) && IsTyped(inp, adjust, ranked, b, j);
      assert TypedAbove((a.score, a.id), (b.score, b.id));
      NotBeforeItself(a.id);
    }
    DistinctSize(entries);
    forall x | x in entries ensures x in ranked {
      var i :| 0 <= i < |entries| && entries[i] == x;
      assert IsTyped(inp, adjust, ranked, hits[i], i);
    }
    ElementsAtMost(ranked);
    SmallerSet(Elements(entries), Elements(ranked));
    SubsetOfSameSize(Elements(entries), Elements(ranked));
    forall p | 0 <= p < |ranked| ensures Carries(hits, ranked[p]) {
      assert ranked[p] in Elements(entries);
      var i :| 0 <= i < |entries| && entries[i] == ranked[p];
      assert IsTyped(inp, adjust, ranked, hits[i], i);
    }
  }

  lemma PlainCarriesAll(ranked: seq<Ranked>, hits: seq<Found>)
    requires AreEntries(hits, ranked)
    ensures forall p :: 0 <= p < |ranked| ==> Carries(hits, ranked[p])
  {
    forall p | 0 <= p < |ranked| ensures Carries(hits, ranked[p]) { assert hits[p].entry == ranked[p]; }
  }

  /** A short list of all candidates, not cut by the limit: every candidate is accounted for. */
  lemma HybridAccounts(
    inp: Inputs, query: Query, ids: seq<string>, short: seq<string>, base: string -> Base, rel: (string, string) -> bool,
    ranked: seq<Ranked>, hits: seq<Found>, id: string)
    requires Collapses(ranked, short, FamilyMap(inp.visible, ids), HybridLimit(query, |ids|), base, rel)
    requires AreHits(inp, query, ranked, hits) && query.k >= 1 && |hits| < query.k && query.topc == inp.topc
    requires (forall x :: x in short <==> x in ids) && |short| == |ids| <= inp.topc && id in ids
    ensures HitOrNoted(inp, hits, id)
  {
    assert DistinctIds(ranked);
    if query.adjust.None? {
      PlainCarriesAll(ranked, hits);
    } else {
      TypedCarriesAll(inp, query.adjust.value, ranked, query.k, hits);
    }
    if |ranked| != HybridLimit(query, |ids|) {
      AccountedIsHitOrNoted(inp, ranked, short, ids, HybridLimit(query, |ids|), base, rel, hits, id);
    } else {
      AllListed(ranked, short, FamilyMap(inp.visible, ids), HybridLimit(query, |ids|), base, rel, id);
      var p :| 0 <= p < |ranked| && ranked[p].id == id;
      assert Carries(hits, ranked[p]);
    }
  }

  lemma HybridRecallFinds(fuser: Fuser, inp: Inputs, texts: map<string, string>, query: Query, id: string)
    requires fuser.Valid() && inp.Valid() && !query.lexicalOnly && query.topc == inp.topc && query.k >= 1 && query.topc >= 1
    requires (forall x :: x in inp.readable ==> x in texts) && inp.IsCandidate(id)
    ensures var hits := HitsOf(fuser, inp.visible, texts, inp.readable, inp.scores, inp.dense, query);
      hits.Some? ==>
        hits.value != [] && (|hits.value| < query.k && |CandidateSet(inp)| <= query.topc ==> HitOrNoted(inp, hits.value, id))
  {
    var hits := HitsOf(fuser, inp.visible, texts, inp.readable, inp.scores, inp.dense, query);
    var ids, short, batch := HybridHitsAre(fuser, inp, texts, query);
    CandidateCount(inp, ids);
    assert id in ids;
    if hits.Some? {
      var scores := fuser.reranker.Scores(query.cue, batch, query.context).value;
      var ranked: seq<Ranked> :|
        && HybridRanking(fuser, inp, HybridLimit(query, |ids|), ids, short, scores, ranked)
        && AreHits(inp, query, ranked, hits.value);
      ShortlistIsNotEmpty(inp, ids, short, id);
      if |hits.value| < query.k && |ids| <= query.topc {
        ShortlistIsAll(inp, ids, short);
        HybridAccounts(
          inp, query, ids, short, HybridSignals(fuser, inp, ids, short, scores), RerankedAbove(inp, ids, short, scores),
          ranked, hits.value, id);
      }
    }
  }

  lemma ShortlistIsNotEmpty(inp: Inputs, ids: seq<string>, short: seq<string>, id: string)
    requires Distinct(ids) && IsShortlist(inp, ids, short) && inp.topc >= 1 && id in ids
    ensures short != []
  {
    DenseFirstIsWeak(inp);
    var sorted := StableSort(ids, DenseFirst(inp));
    SortKeepsAll(ids, DenseFirst(inp));
    SortKeepsMembers(ids, DenseFirst(inp));
    assert sorted[0] in ids;
    var x := sorted[0];
    SliceRanks(ids, DenseFirst(inp), inp.topc);
    assert Prefix(sorted, inp.topc)[0] == x;
    assert IsRanked(inp, ids, x);
    SmallerSet({x}, set y | y in ids && IsRanked(inp, ids, y));
  }

  // -- Whole recalls -----------------------------------------------------------------------------------

  /** Ids are primary keys of the rows and of the index. */
  ghost predicate KeyedWorld(w: World) {
    Distinct(Ids(w.metas)) && (w.index.MemoryView? ==> VectorSearch.Keyed(w.index.items))
  }

  /** What the ranking of a recall starts from. */
  ghost function InputsOf(s: Setup, w: World, principal: Principal, query: Query): Inputs
    requires s.Valid()
  {
    var shown := Shown(w.metas, principal, query);
    var readable := Readable(s.env, w.vault, Ids(shown));
    ReadableIsFresh(s.env, w.vault, Ids(shown));
    Inputs(
      shown, readable, LexicalScores(s.env, w.vault, query.cue, readable),
      Dense(s.num, w.index, principal.tenant, query.embedding, query.topc, Ids(shown)), query.topc)
  }

  lemma ShownIsKeyed(metas: seq<Meta>, principal: Principal, query: Query)
    requires Distinct(Ids(metas))
    ensures Distinct(Ids(Shown(metas, principal, query)))
  {
    var differ := (a: Meta, b: Meta) => a.id != b.id;
    forall i, j | 0 <= i < j < |metas| ensures differ(metas[i], metas[j]) {
      assert Ids(metas)[i] == metas[i].id && Ids(metas)[j] == metas[j].id;
    }
    FilterPairwise(metas, Matches(query), differ);
    FilterPairwise(Filter(metas, Matches(query)), MayShow(principal), differ);
    var shown := Shown(metas, principal, query);
    forall i, j | 0 <= i < j < |shown| ensures Ids(shown)[i] != Ids(shown)[j] { assert differ(shown[i], shown[j]); }
  }

  lemma ReadableIsKeyed(env: Env, v: Vault, ids: seq<string>)
    requires Distinct(ids)
    ensures Distinct(Readable(env, v, ids))
  {
    var differ, keep := (a: string, b: string) => a != b, (id: string) => Fresh(env.crypto, v, id).Some?;
    assert Pairwise(ids, differ);
    FilterPairwise(ids, keep, differ);
    var readable := Readable(env, v, ids);
    SameFilter(ids, keep, (id: string) => Fresh(env.crypto, v, id).Some?);
    assert readable == Filter(ids, keep);
    forall i, j | 0 <= i < j < |readable| ensures readable[i] != readable[j] { assert differ(readable[i], readable[j]); }
  }

  lemma DenseIsKeyed(num: Numeric, view: IndexView, tenant: string, q: Vector, n: int, allowed: seq<string>)
    requires num.Valid() && (view.MemoryView? ==> VectorSearch.Keyed(view.items))
    ensures Distinct(FoundIds(Dense(num, view, tenant, q, n, allowed)))
  {
    match view
    case FileView(ready, file) => if n > 0 { FileAnswerMeans(file, tenant, q, n, Some(allowed)); }
    case MemoryView(items) => MemoryAnswerMeans(num, items, tenant, q, n, Some(Elements(allowed)));
  }

  /** A row is readable and visible to a recall exactly when it can be read, the filters want it,
      and the principal may see it. */
  lemma ReadableIffReturnable(s: Setup, w: World, principal: Principal, query: Query, id: string)
    requires s.Valid()
    ensures id in InputsOf(s, w, principal, query).readable <==> Returnable(s.env, w, principal, query, id)
  {
    var shown := Shown(w.metas, principal, query);
    if Returnable(s.env, w, principal, query, id) {
      var m :| m in w.metas && m.id == id && m.indexed && query.wanted(m) && Visible(principal, m.gated);
      assert m in shown;
      var i :| 0 <= i < |shown| && shown[i] == m;
      assert Ids(shown)[i] == id;
    }
    if id in InputsOf(s, w, principal, query).readable { ReadableIsReturnable(s.env, w, principal, query, id); }
  }

  lemma InputsAreValid(s: Setup, w: World, principal: Principal, query: Query)
    requires s.Valid() && KeyedWorld(w)
    ensures var inp, texts := InputsOf(s, w, principal, query), FreshTexts(s.env, w.vault, Ids(Shown(w.metas, principal, query)));
      && inp.Valid() && (forall id :: id in inp.readable ==> id in texts)
      && RecallOutcome(s, w, principal, query).hits ==
           HitsOf(s.fuser, inp.visible, texts, inp.readable, inp.scores, inp.dense, query)
  {
    var inp, ids := InputsOf(s, w, principal, query), Ids(Shown(w.metas, principal, query));
    ShownIsKeyed(w.metas, principal, query);
    ReadableIsKeyed(s.env, w.vault, ids);
    DenseIsKeyed(s.num, w.index, principal.tenant, query.embedding, query.topc, ids);
    assert inp.DenseIds() == FoundIds(inp.dense);
  }

  /** The dense hits are what the index answers among the rows shown, for the principal's tenant. */
  lemma DenseHitsAre(s: Setup, w: World, principal: Principal, query: Query)
    requires s.Valid() && KeyedWorld(w)
    ensures var inp := InputsOf(s, w, principal, query);
      match w.index
      case FileView(ready, file) =>
        if !ready || query.topc <= 0 || inp.visible == [] then inp.dense == []
        else AnswersFile(file, principal.tenant, query.embedding, query.topc, Some(Ids(inp.visible)), inp.dense)
      case MemoryView(items) =>
        AnswersMemory(
          s.num, items, principal.tenant, query.embedding, query.topc, Some(Elements(Ids(inp.visible))), inp.dense)
  {
    var inp := InputsOf(s, w, principal, query);
    match w.index
    case FileView(ready, file) =>
      if query.topc > 0 { FileAnswerMeans(file, principal.tenant, query.embedding, query.topc, Some(Ids(inp.visible))); }
    case MemoryView(items) =>
      MemoryAnswerMeans(s.num, items, principal.tenant, query.embedding, query.topc, Some(Elements(Ids(inp.visible))));
  }

  /** The documents behind the lexical scores. */
  ghost predicate AreDocuments(env: TextCaches.Env, v: Vault, ids: seq<string>, docs: seq<seq<string>>) {
    && |docs| == |ids|
    && forall i :: 0 <= i < |ids| ==>
         Fresh(env.crypto, v, ids[i]).Some? && docs[i] == env.tokenize(Fresh(env.crypto, v, ids[i]).value.index)
  }

  /** The lexical scores are those of the tokenised index texts, freshly decrypted, for the words of
      the cue; and the reranker is shown these texts. */
  lemma LexicalScoresAre(s: Setup, w: World, principal: Principal, query: Query)
    requires s.Valid()
    ensures var inp, texts := InputsOf(s, w, principal, query), FreshTexts(s.env, w.vault, Ids(Shown(w.metas, principal, query)));
      && (exists docs ::
            && AreDocuments(s.env, w.vault, inp.readable, docs) && |inp.scores| == |docs|
            && forall i :: 0 <= i < |docs| ==>
                 inp.scores[i] == Bm25.Score(s.env.log, docs, i, Elements(s.env.tokenize(query.cue))))
      && forall id :: id in texts ==>
           Fresh(s.env.crypto, w.vault, id).Some? && texts[id] == Fresh(s.env.crypto, w.vault, id).value.index
  {
    var inp := InputsOf(s, w, principal, query);
    ReadableIsFresh(s.env, w.vault, Ids(Shown(w.metas, principal, query)));
    var docs := DocsOf(s.env, w.vault, inp.readable);
    assert AreDocuments(s.env, w.vault, inp.readable, docs);
  }

  /** Every row that a recall may return and that is a readable dense hit, or has fewer than `topc`
      readable rows of higher lexical score, is found: a recall with such a row has a hit; and when
      neither the limit nor the short list is full, the row itself is a hit or is noted under a hit
      of its mirror family. No other row is a candidate. */
  lemma RecallFinds(s: Setup, w: World, principal: Principal, query: Query, id: string)
    requires s.Valid() && KeyedWorld(w) && query.k >= 1 && query.topc >= 1
    requires InputsOf(s, w, principal, query).IsCandidate(id)
    ensures var inp, hits := InputsOf(s, w, principal, query), RecallOutcome(s, w, principal, query).hits;
      && (query.lexicalOnly ==> hits.Some?)
      && (hits.Some? ==> hits.value != [])
      && (hits.Some? && |hits.value| < query.k && (query.lexicalOnly || |CandidateSet(inp)| <= query.topc) ==>
            HitOrNoted(inp, hits.value, id))
  {
    var inp, texts := InputsOf(s, w, principal, query), FreshTexts(s.env, w.vault, Ids(Shown(w.metas, principal, query)));
    InputsAreValid(s, w, principal, query);
    if query.lexicalOnly {
      LexicalRecallFinds(s.fuser, inp, texts, query, id);
    } else {
      HybridRecallFinds(s.fuser, inp, texts, query, id);
    }
  }

  /** The lexically best readable row is a candidate. */
  lemma SomeCandidate(inp: Inputs) returns (best: string)
    requires inp.Valid() && inp.topc >= 1 && inp.readable != []
    ensures inp.IsCandidate(best)
  {
    var lexical := ScoreMap(inp.readable, inp.scores);
    LexicalTopHolds(inp);
    SortKeepsAll(inp.readable, ByLexical(lexical));
    var top := LexicalTop(inp.readable, lexical, inp.topc);
    assert top == Prefix(StableSort(inp.readable, ByLexical(lexical)), inp.topc);
    best := top[0];
    assert best in top;
  }

  /** A recall with room for one hit and one candidate finds something as soon as there is a row
      it may return. */
  lemma RecallIsNotEmpty(s: Setup, w: World, principal: Principal, query: Query, id: string)
    requires s.Valid() && KeyedWorld(w) && query.k >= 1 && query.topc >= 1
    requires Returnable(s.env, w, principal, query, id)
    ensures var hits := RecallOutcome(s, w, principal, query).hits;
      (query.lexicalOnly ==> hits.Some?) && (hits.Some? ==> hits.value != [])
  {
    var inp := InputsOf(s, w, principal, query);
    InputsAreValid(s, w, principal, query);
    ReadableIffReturnable(s, w, principal, query, id);
    var best := SomeCandidate(inp);
    RecallFinds(s, w, principal, query, best);
  }

  /** The hits of every recall: lexical ones are the candidates by falling score, hybrid ones the
      reranked short list, and without candidates there are none. */
  lemma RecallIs(s: Setup, w: World, principal: Principal, query: Query)
    requires s.Valid() && KeyedWorld(w)
    ensures var inp, hits := InputsOf(s, w, principal, query), RecallOutcome(s, w, principal, query).hits;
      var texts := FreshTexts(s.env, w.vault, Ids(inp.visible));
      && inp.Valid()
      && (query.lexicalOnly ==> hits.Some? && IsLexicalRecall(s.fuser, inp, query, hits.value))
      && (!query.lexicalOnly && CandidateSet(inp) != {} ==> IsHybridRecall(s.fuser, inp, texts, query, hits))
      && (!query.lexicalOnly && CandidateSet(inp) == {} ==> hits == Some([]))
  {
    var inp, hits := InputsOf(s, w, principal, query), RecallOutcome(s, w, principal, query).hits;
    var texts := FreshTexts(s.env, w.vault, Ids(inp.visible));
    InputsAreValid(s, w, principal, query);
    if query.lexicalOnly {
      LexicalHitsAre(s.fuser, inp, texts, query);
    } else if CandidateSet(inp) != {} {
      var id :| id in CandidateSet(inp);
      var ids, short, batch := HybridHitsAre(s.fuser, inp, texts, query);
    } else {
      forall id ensures !inp.IsCandidate(id) { assert id !in CandidateSet(inp); }
      NoCandidatesNoHits(s.fuser, inp, texts, query);
    }
  }

  ghost predicate IsLexicalRecall(fuser: Fuser, inp: Inputs, query: Query, hits: seq<Found>) {
    exists ids, ranked :: LexicalRanking(fuser, inp, query.k, ids, ranked) && AreEntries(hits, ranked)
  }

  ghost predicate IsHybridRecall(
    fuser: Fuser, inp: Inputs, texts: map<string, string>, query: Query, hits: Option<seq<Found>>)
  {
    exists ids, short, batch :: HybridHits(fuser, inp, texts, query, ids, short, batch, hits)
  }

  // -- The pending count --------------------------------------------------------------------------------

  /** The pending count is the number of rows that are not indexed, are no privileged contract and
      may be seen, whatever the filters. */
  lemma PendingCount(metas: seq<Meta>, principal: Principal)
    ensures Lag(metas, principal) == |PendingPlaces(metas, principal)|
  {
    PendingFilter(metas, principal);
  }

  function PendingPlaces(metas: seq<Meta>, principal: Principal): set<nat> {
    set i | 0 <= i < |metas| && IsPending(metas[i], principal)
  }

  predicate IsPending(m: Meta, principal: Principal) {
    !m.indexed && !m.contract && Visible(principal, m.gated)
  }

  lemma OnePendingMore(init: seq<Meta>, last: Meta, principal: Principal)
    ensures PendingPlaces(init + [last], principal) ==
      PendingPlaces(init, principal) + if IsPending(last, principal) then {|init|} else {}
  {
    var metas := init + [last];
    assert metas[|init|] == last && forall i :: 0 <= i < |init| ==> metas[i] == init[i];
  }

  lemma OnePendingFiltered(init: seq<Meta>, last: Meta, principal: Principal)
    ensures Lag(init + [last], principal) == Lag(init, principal) + if IsPending(last, principal) then 1 else 0
  {
    FilterAppend(init, [last], Pending());
    FilterAppend(Filter(init, Pending()), Filter([last], Pending()), MayShow(principal));
    var one := Filter([last], Pending());
    if Pending()(last) { FilterAll([last], Pending()); } else { FilterNone([last], Pending()); }
    if MayShow(principal)(last) { FilterAll([last], MayShow(principal)); } else { FilterNone([last], MayShow(principal)); }
  }

  lemma {:induction false} PendingFilter(metas: seq<Meta>, principal: Principal)
    ensures Lag(metas, principal) == |PendingPlaces(metas, principal)|
  {
    if metas != [] {
      var init, last := metas[..|metas| - 1], metas[|metas| - 1];
      assert metas == init + [last];
      PendingFilter(init, principal);
      OnePendingFiltered(init, last, principal);
      OnePendingMore(init, last, principal);
    }
  }
}
