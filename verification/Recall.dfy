/** Recall: policy first, then dense search, BM25, fusion and collapse over the visible rows. */
module Recall {
  import opened Common
  import opened Policy
  import opened VectorSearch
  import opened Bm25
  import opened TextCaches
  import opened Fusion

  /** What recall reads of a row before its content. `contract` marks the privileged
      contracts that do not count as pending; `family` is its mirror family and precedence. */
  datatype Meta = Meta(
    id: string, gated: Gated, indexed: bool, contract: bool, labels: string, family: Option<(string, nat)>)

  /** `wanted` are the caller's filters; `adjust` is the typed score, when asked for. */
  datatype Query = Query(
    cue: string, embedding: Vector, wanted: Meta -> bool, k: int, topc: int, lexicalOnly: bool,
    adjust: Option<(real, Meta) -> real>, context: string)

  datatype Found = Found(id: string, score: real, entry: Ranked, finalRank: nat)

  /** `hits` is None when the reranker's result is refused. */
  datatype Outcome = Outcome(hits: Option<seq<Found>>, lag: nat)

  // -- The index behind either implementation -------------------------------------------------

  datatype IndexView = FileView(ready: bool, file: VecFile) | MemoryView(items: seq<Item>)

  ghost function Dense(
    num: Numeric, view: IndexView, tenant: string, q: Vector, n: int, allowed: seq<string>): seq<(string, real)>
    requires num.Valid()
  {
    match view
    case FileView(ready, file) =>
      if !ready || n <= 0 || allowed == [] then []
      else Similarities(Take(VectorSearch.Ranked(Eligible(file, tenant, q, Some(allowed))), n))
    case MemoryView(items) => Answer(num, items, tenant, q, n, Some(Elements(allowed)))
  }

  datatype Index = OnFile(index: SqliteVecIndex) | InMemory(memory: NumpyVectorIndex) {
    ghost function Objects(): set<object> {
      match this case OnFile(i) => {i} case InMemory(i) => {i}
    }

    ghost predicate Valid()
      reads Objects()
    {
      match this case OnFile(i) => OracleHolds(i.file) case InMemory(i) => i.Valid()
    }

    ghost function View(): IndexView
      reads Objects()
    {
      match this case OnFile(i) => FileView(i.ready, i.file) case InMemory(i) => MemoryView(i.items)
    }
  }

  method Search(index: Index, num: Numeric, tenant: string, q: Vector, n: int, allowed: seq<string>)
    returns (dense: seq<(string, real)>)
    requires index.Valid() && num.Valid()
    modifies index.Objects()
    ensures index.Valid() && index.View() == old(index.View())
    ensures dense == Dense(num, index.View(), tenant, q, n, allowed)
    ensures forall d :: d in dense ==> d.0 in allowed
  {
    DenseIsAllowed(num, index.View(), tenant, q, n, allowed);
    match index
    case OnFile(i) => dense := i.Search(tenant, q, n, Some(allowed));
    case InMemory(i) => dense := i.Search(num, tenant, q, n, Some(Elements(allowed)));
  }

  /** Neither index names a row outside the allow-list. */
  lemma DenseIsAllowed(num: Numeric, view: IndexView, tenant: string, q: Vector, n: int, allowed: seq<string>)
    requires num.Valid()
    ensures forall d :: d in Dense(num, view, tenant, q, n, allowed) ==> d.0 in allowed
  {
    match view
    case FileView(ready, file) =>
      var hits := Eligible(file, tenant, q, Some(allowed));
      forall h | h in VectorSearch.Ranked(hits) ensures h.id in allowed { assert h in Elements(VectorSearch.Ranked(hits)); }
    case MemoryView(items) =>
      var chosen := Chosen(items, tenant, Some(Elements(allowed)));
      assert IsSortPermutation(Sims(num, chosen, q), num.argsort(Sims(num, chosen, q)));
      forall i | 0 <= i < |chosen| ensures chosen[i].id in allowed { assert chosen[i] in chosen; }
  }

  // -- From the visible rows to the hits ---------------------------------------------------------

  function Ids(metas: seq<Meta>): seq<string> {
    seq(|metas|, i requires 0 <= i < |metas| => metas[i].id)
  }

  function MetaOf(metas: seq<Meta>, id: string): Option<Meta> {
    if metas == [] then None
    else if metas[|metas| - 1].id == id then Some(metas[|metas| - 1])
    else MetaOf(metas[..|metas| - 1], id)
  }

  function PairMap(pairs: seq<(string, real)>): map<string, real> {
    if pairs == [] then map[]
    else PairMap(pairs[..|pairs| - 1])[pairs[|pairs| - 1].0 := pairs[|pairs| - 1].1]
  }

  /** The families of the candidates, with their precedence; none when no candidate has one. */
  function MirrorsOf(visible: seq<Meta>, ids: seq<string>): Mirrors {
    if ids == [] then NoMirrors
    else
      var before, id := MirrorsOf(visible, ids[..|ids| - 1]), ids[|ids| - 1];
      var meta := MetaOf(visible, id);
      if meta.None? || meta.value.family.None? then before
      else
        var (key, rank) := meta.value.family.value;
        Mirrors(FamiliesOf(before)[id := key], (if before.NoMirrors? then map[] else before.precedence)[id := rank])
  }

  function FoundIds(dense: seq<(string, real)>): seq<string> {
    seq(|dense|, i requires 0 <= i < |dense| => dense[i].0)
  }

  function Among(ids: seq<string>): string -> bool {
    (id: string) => id in ids
  }

  function CandidateIds(dense: seq<(string, real)>, readable: seq<string>, lexical: map<string, real>, topc: int): seq<string> {
    var fromDense := Filter(FoundIds(dense), Among(readable));
    Dedupe(fromDense + LexicalTop(readable, lexical, topc))
  }

  function LabelsOf(visible: seq<Meta>, id: string): string {
    var meta := MetaOf(visible, id);
    if meta.Some? then meta.value.labels else ""
  }

  function IndexText(texts: map<string, string>, id: string): string {
    if id in texts then texts[id] else ""
  }

  function Candidates(visible: seq<Meta>, texts: map<string, string>, ids: seq<string>): seq<Candidate> {
    seq(|ids|, i requires 0 <= i < |ids| => Candidate(ids[i], IndexText(texts, ids[i]), LabelsOf(visible, ids[i])))
  }

  function LexicalOrder(ids: seq<string>, lexical: map<string, real>, m: Mirrors): seq<string> {
    if m.NoMirrors? then StableSort(ids, (x: string, y: string) => Or0(lexical, x) > Or0(lexical, y))
    else StableSort(ids, (x: string, y: string) => Better(lexical, m, x, y))
  }

  function LexicalBase(fuser: Fuser, dense: map<string, real>, lexical: map<string, real>): string -> Base {
    (id: string) => Base(Or0(lexical, id), fuser.round(Or0(dense, id)), fuser.round(Or0(lexical, id)), 0.0)
  }

  /** How many entries the reranking keeps before typed adjustment. */
  function RerankLimit(query: Query, candidates: int): int {
    var most := if query.k >= candidates then query.k else candidates;
    if query.adjust.None? then query.k else if query.topc <= most then query.topc else most
  }

  function Plain(ranked: seq<Ranked>): seq<Found> {
    seq(|ranked|, i requires 0 <= i < |ranked| =>
      Found(ranked[i].id, ranked[i].base.score, ranked[i], ranked[i].finalRank))
  }

  function AdjustedScore(adjust: (real, Meta) -> real, visible: seq<Meta>, entry: Ranked): real {
    var meta := MetaOf(visible, entry.id);
    if meta.Some? then adjust(entry.base.score, meta.value) else entry.base.score
  }

  function Rescored(adjust: (real, Meta) -> real, visible: seq<Meta>, ranked: seq<Ranked>): seq<Found> {
    seq(|ranked|, i requires 0 <= i < |ranked| =>
      Found(ranked[i].id, AdjustedScore(adjust, visible, ranked[i]), ranked[i], 0))
  }

  predicate TypedBefore(x: Found, y: Found) {
    x.score > y.score || (x.score == y.score && IdBefore(x.id, y.id))
  }

  function Renumbered(hits: seq<Found>): seq<Found> {
    seq(|hits|, i requires 0 <= i < |hits| => hits[i].(finalRank := i))
  }

  /** Typed scores decide again, ties by id; the final ranks are renumbered. */
  function Retyped(adjust: (real, Meta) -> real, visible: seq<Meta>, ranked: seq<Ranked>, k: int): seq<Found> {
    Renumbered(Prefix(TypedSort(Rescored(adjust, visible, ranked)), k))
  }

  function TypedSort(hits: seq<Found>): seq<Found> {
    StableSort(hits, (x: Found, y: Found) => TypedBefore(x, y))
  }

  ghost predicate InTypedOrder(hits: seq<Found>) {
    forall i, j :: 0 <= i < j < |hits| ==> TypedBefore(hits[i], hits[j]) && hits[i].id != hits[j].id
  }

  /** What the texts, the dense hits and the lexical scores of the visible rows determine. */
  ghost function HitsOf(
    fuser: Fuser, visible: seq<Meta>, texts: map<string, string>, readable: seq<string>, scores: seq<real>,
    dense: seq<(string, real)>, query: Query): Option<seq<Found>>
    requires fuser.Valid() && |scores| == |readable|
  {
    var lexical, denseMap := ScoreMap(readable, scores), PairMap(dense);
    var ids := CandidateIds(dense, readable, lexical, query.topc);
    var m := MirrorsOf(visible, ids);
    if query.lexicalOnly then
      Some(Plain(CollapsedRanking(
        LexicalOrder(ids, lexical, m), FamiliesOf(m), query.k, LexicalBase(fuser, denseMap, lexical))))
    else FusedHits(fuser, visible, texts, denseMap, lexical, ids, m, query)
  }

  /** The hybrid method: fused and reranked, and with typed scores ranked again. */
  ghost function FusedHits(
    fuser: Fuser, visible: seq<Meta>, texts: map<string, string>, dense: map<string, real>, lexical: map<string, real>,
    ids: seq<string>, m: Mirrors, query: Query): Option<seq<Found>>
    requires fuser.Valid()
  {
    var ranked := FusedRanking(
      fuser, query.cue, Candidates(visible, texts, ids), dense, lexical, RerankLimit(query, |ids|), query.topc, m,
      query.context);
    if ranked.None? then None
    else if query.adjust.None? then Some(Plain(ranked.value))
    else Some(Retyped(query.adjust.value, visible, ranked.value, query.k))
  }

  method RankVisible(
    fuser: Fuser, visible: seq<Meta>, texts: map<string, string>, readable: seq<string>, scores: seq<real>,
    dense: seq<(string, real)>, query: Query) returns (hits: Option<seq<Found>>)
    requires fuser.Valid() && |scores| == |readable|
    ensures hits == HitsOf(fuser, visible, texts, readable, scores, dense, query)
  {
    var lexical, denseMap := ScoreMap(readable, scores), PairMap(dense);
    var ids := CandidateIds(dense, readable, lexical, query.topc);
    var m := MirrorsOf(visible, ids);
    if query.lexicalOnly {
      LexicalOrderIsDistinct(dense, readable, lexical, query.topc, m);
      var ranked := RankAndCollapse(
        LexicalOrder(ids, lexical, m), FamiliesOf(m), query.k, LexicalBase(fuser, denseMap, lexical));
      return Some(Plain(ranked));
    }
    var fused := FuseRerank(
      fuser, query.cue, Candidates(visible, texts, ids), denseMap, lexical, RerankLimit(query, |ids|), query.topc, m,
      query.context);
    if fused.None? {
      return None;
    }
    return Some(if query.adjust.None? then Plain(fused.value)
                else Retyped(query.adjust.value, visible, fused.value, query.k));
  }

  lemma LexicalOrderIsDistinct(
    dense: seq<(string, real)>, readable: seq<string>, lexical: map<string, real>, topc: int, m: Mirrors)
    ensures Distinct(LexicalOrder(CandidateIds(dense, readable, lexical, topc), lexical, m))
  {
    var fromDense := Filter(FoundIds(dense), Among(readable));
    DedupeKeepsMembers(fromDense + LexicalTop(readable, lexical, topc));
    var ids := CandidateIds(dense, readable, lexical, topc);
    SortKeepsDistinct(ids, (x: string, y: string) => Or0(lexical, x) > Or0(lexical, y));
    SortKeepsDistinct(ids, (x: string, y: string) => Better(lexical, m, x, y));
  }

  // -- What the ranking of the visible rows delivers --------------------------------------------

  /** The hits are among the given rows, each once and in its place, within the limit, by falling
      score, and with typed scores ties by id. */
  ghost predicate DeliversHits(hits: seq<Found>, rows: seq<string>, k: int, typed: bool) {
    && (forall i :: 0 <= i < |hits| ==> hits[i].id in rows && hits[i].finalRank == i)
    && (forall i, j :: 0 <= i < j < |hits| ==> hits[i].id != hits[j].id)
    && (forall i, j :: 0 <= i < j < |hits| ==> hits[i].score >= hits[j].score)
    && (typed ==> forall i, j :: 0 <= i < j < |hits| && hits[i].score == hits[j].score ==> IdBefore(hits[i].id, hits[j].id))
    && (k > 0 ==> |hits| <= k)
  }

  lemma CandidatesAreReadable(dense: seq<(string, real)>, readable: seq<string>, lexical: map<string, real>, topc: int)
    ensures Distinct(CandidateIds(dense, readable, lexical, topc))
    ensures forall id :: id in CandidateIds(dense, readable, lexical, topc) ==> id in readable
  {
    var fromDense := Filter(FoundIds(dense), Among(readable));
    SortKeepsMembers(readable, (x: string, y: string) => Or0(lexical, x) > Or0(lexical, y));
    DedupeKeepsMembers(fromDense + LexicalTop(readable, lexical, topc));
  }

  lemma LexicalBestFirst(ids: seq<string>, lexical: map<string, real>, m: Mirrors)
    ensures var order := LexicalOrder(ids, lexical, m);
      forall i, j :: 0 <= i < j < |order| ==> Or0(lexical, order[i]) >= Or0(lexical, order[j])
    ensures forall id :: id in LexicalOrder(ids, lexical, m) ==> id in ids
  {
    if m.NoMirrors? {
      var higher := (x: string, y: string) => Or0(lexical, x) > Or0(lexical, y);
      SortSorts(ids, higher);
      SortKeepsMembers(ids, higher);
    } else {
      var better := (x: string, y: string) => Better(lexical, m, x, y);
      forall x, y, z
        ensures better(x, y) ==> !better(y, x)
        ensures !better(x, y) && !better(y, z) ==> !better(x, z)
      {
        BetterComposes(lexical, m, x, y, z);
      }
      SortSorts(ids, better);
      SortKeepsMembers(ids, better);
    }
  }

  lemma PlainDelivers(ranked: seq<Ranked>, candidates: seq<string>, rows: seq<string>, k: int, fam: Families)
    requires Delivers(ranked, candidates, k, fam) && forall id :: id in candidates ==> id in rows
    ensures DeliversHits(Plain(ranked), rows, k, false)
  {
  }

  lemma TypedComposes(x: Found, y: Found, z: Found)
    ensures TypedBefore(x, y) ==> !TypedBefore(y, x)
    ensures !TypedBefore(x, y) && !TypedBefore(y, z) ==> !TypedBefore(x, z)
  {
    IdsAreOrdered(x.id, y.id);
    IdsAreOrdered(y.id, z.id);
    IdsAreOrdered(x.id, z.id);
    if IdBefore(x.id, z.id) && IdBefore(z.id, y.id) { IdBeforeIsTransitive(x.id, z.id, y.id); }
    if IdBefore(y.id, x.id) && IdBefore(x.id, z.id) { IdBeforeIsTransitive(y.id, x.id, z.id); }
  }

  lemma SortedTyped(scored: seq<Found>)
    requires forall i, j :: 0 <= i < j < |scored| ==> scored[i].id != scored[j].id
    ensures InTypedOrder(TypedSort(scored)) && forall x :: x in TypedSort(scored) ==> x in scored
  {
    var before := (x: Found, y: Found) => TypedBefore(x, y);
    forall x, y, z
      ensures before(x, y) ==> !before(y, x)
      ensures !before(x, y) && !before(y, z) ==> !before(x, z)
    {
      TypedComposes(x, y, z);
    }
    var r := StableSort(scored, before);
    SortSorts(scored, before);
    SortKeepsMembers(scored, before);
    assert Distinct(scored);
    SortKeepsDistinct(scored, before);
    forall i, j | 0 <= i < j < |r| ensures TypedBefore(r[i], r[j]) && r[i].id != r[j].id {
      assert r[i] in scored && r[j] in scored;
      var p :| 0 <= p < |scored| && scored[p] == r[i];
      var q :| 0 <= q < |scored| && scored[q] == r[j];
      assert p != q;
      assert p < q || q < p;
      IdsAreOrdered(r[i].id, r[j].id);
      assert !before(r[j], r[i]);
    }
  }

  lemma RetypedDelivers(
    adjust: (real, Meta) -> real, visible: seq<Meta>, ranked: seq<Ranked>, candidates: seq<string>, rows: seq<string>,
    limit: int, k: int, fam: Families)
    requires Delivers(ranked, candidates, limit, fam) && forall id :: id in candidates ==> id in rows
    ensures DeliversHits(Retyped(adjust, visible, ranked, k), rows, k, true)
  {
    var scored := Rescored(adjust, visible, ranked);
    SortedTyped(scored);
    forall x | x in scored ensures x.id in rows {
      var p :| 0 <= p < |scored| && scored[p] == x;
      assert ranked[p].id in candidates;
    }
    assert forall x :: x in Prefix(TypedSort(scored), k) ==> x in TypedSort(scored);
    RenumberedDelivers(Prefix(TypedSort(scored), k), rows, k);
  }

  lemma RenumberedDelivers(hits: seq<Found>, rows: seq<string>, k: int)
    requires InTypedOrder(hits)
    requires forall x :: x in hits ==> x.id in rows
    requires k > 0 ==> |hits| <= k
    ensures DeliversHits(Renumbered(hits), rows, k, true)
  {
    var r := Renumbered(hits);
    forall i | 0 <= i < |r| ensures r[i].id in rows { assert hits[i] in hits; }
    forall i, j | 0 <= i < j < |r| ensures TypedBefore(r[i], r[j]) && r[i].id != r[j].id {
      assert TypedBefore(hits[i], hits[j]);
    }
  }

  /** Every hit is a readable row among the visible ones, named once, in its place, best first,
      within the limit; whatever the index answered and the reranker scored. */
  lemma HitsDeliver(
    fuser: Fuser, visible: seq<Meta>, texts: map<string, string>, readable: seq<string>, scores: seq<real>,
    dense: seq<(string, real)>, query: Query)
    requires fuser.Valid() && |scores| == |readable|
    ensures var hits := HitsOf(fuser, visible, texts, readable, scores, dense, query);
      hits.Some? ==> DeliversHits(hits.value, readable, query.k, query.adjust.Some? && !query.lexicalOnly)
  {
    var lexical, denseMap := ScoreMap(readable, scores), PairMap(dense);
    var ids := CandidateIds(dense, readable, lexical, query.topc);
    var m := MirrorsOf(visible, ids);
    CandidatesAreReadable(dense, readable, lexical, query.topc);
    if query.lexicalOnly {
      LexicalOrderIsDistinct(dense, readable, lexical, query.topc, m);
      LexicalBestFirst(ids, lexical, m);
      CollapsedDelivers(LexicalOrder(ids, lexical, m), ids, FamiliesOf(m), query.k, LexicalBase(fuser, denseMap, lexical));
      PlainDelivers(
        CollapsedRanking(LexicalOrder(ids, lexical, m), FamiliesOf(m), query.k, LexicalBase(fuser, denseMap, lexical)),
        ids, readable, query.k, FamiliesOf(m));
    } else {
      FusedHitsDeliver(fuser, visible, texts, readable, denseMap, lexical, ids, m, query);
    }
  }

  lemma FusedHitsDeliver(
    fuser: Fuser, visible: seq<Meta>, texts: map<string, string>, readable: seq<string>, dense: map<string, real>,
    lexical: map<string, real>, ids: seq<string>, m: Mirrors, query: Query)
    requires fuser.Valid() && forall id :: id in ids ==> id in readable
    ensures var hits := FusedHits(fuser, visible, texts, dense, lexical, ids, m, query);
      hits.Some? ==> DeliversHits(hits.value, readable, query.k, query.adjust.Some?)
  {
    var limit := RerankLimit(query, |ids|);
    var candidates := Candidates(visible, texts, ids);
    assert IdsOf(candidates) == ids;
    FusedDelivers(fuser, query.cue, candidates, dense, lexical, limit, query.topc, m, query.context);
    var ranked := FusedRanking(fuser, query.cue, candidates, dense, lexical, limit, query.topc, m, query.context);
    if ranked.Some? {
      if query.adjust.None? {
        PlainDelivers(ranked.value, ids, readable, query.k, FamiliesOf(m));
      } else {
        RetypedDelivers(query.adjust.value, visible, ranked.value, ids, readable, limit, query.k, FamiliesOf(m));
      }
    }
  }

  // -- The whole recall ---------------------------------------------------------------------------

  /** Everything recall reads, apart from the query and the principal. */
  datatype World = World(metas: seq<Meta>, vault: Vault, index: IndexView)

  datatype Setup = Setup(env: Env, num: Numeric, fuser: Fuser) {
    ghost predicate Valid() {
      num.Valid() && fuser.Valid()
    }
  }

  function MayShow(principal: Principal): Meta -> bool {
    (m: Meta) => Visible(principal, m.gated)
  }

  function Matches(query: Query): Meta -> bool {
    (m: Meta) => query.wanted(m) && m.indexed
  }

  function Pending(): Meta -> bool {
    (m: Meta) => !m.indexed && !m.contract
  }

  /** The tenant's rows the principal may see, whatever the filters. */
  function Cleared(w: World, principal: Principal): seq<Meta> {
    Filter(w.metas, MayShow(principal))
  }

  ghost function FreshTexts(env: Env, v: Vault, ids: seq<string>): map<string, string> {
    map id | id in ids && Fresh(env.crypto, v, id).Some? :: Fresh(env.crypto, v, id).value.index
  }

  ghost function LexicalScores(env: Env, v: Vault, cue: string, ids: seq<string>): seq<real>
    requires AllFresh(env, v, ids)
  {
    var docs := DocsOf(env, v, ids);
    seq(|ids|, i requires 0 <= i < |ids| => Score(env.log, docs, i, Elements(env.tokenize(cue))))
  }

  /** The hits over a list of visible rows. */
  ghost function HitsOver(s: Setup, visible: seq<Meta>, v: Vault, index: IndexView, principal: Principal, query: Query)
    : Option<seq<Found>>
    requires s.Valid()
  {
    var ids := Ids(visible);
    var readable := Readable(s.env, v, ids);
    ReadableIsFresh(s.env, v, ids);
    HitsOf(
      s.fuser, visible, FreshTexts(s.env, v, ids), readable, LexicalScores(s.env, v, query.cue, readable),
      Dense(s.num, index, principal.tenant, query.embedding, query.topc, ids), query)
  }

  function Shown(metas: seq<Meta>, principal: Principal, query: Query): seq<Meta> {
    Filter(Filter(metas, Matches(query)), MayShow(principal))
  }

  function Lag(metas: seq<Meta>, principal: Principal): nat {
    |Filter(Filter(metas, Pending()), MayShow(principal))|
  }

  ghost function RecallOutcome(s: Setup, w: World, principal: Principal, query: Query): Outcome
    requires s.Valid()
  {
    Outcome(
      HitsOver(s, Shown(w.metas, principal, query), w.vault, w.index, principal, query), Lag(w.metas, principal))
  }

  /** Recall over the client's caches and either index answers what the uncached specification
      answers; the pending count follows policy alone. */
  method Recall(client: Client, index: Index, metas: seq<Meta>, s: Setup, principal: Principal, query: Query)
    returns (outcome: Outcome)
    requires client.Valid() && index.Valid() && s.Valid() && s.env == client.env && client !in index.Objects()
    modifies client, index.Objects()
    ensures client.Valid() && index.Valid()
    ensures client.vault == old(client.vault) && index.View() == old(index.View())
    ensures outcome == RecallOutcome(s, World(metas, client.vault, index.View()), principal, query)
  {
    var visible := ShowRows(metas, principal, query);
    var lag := CountPending(metas, principal);
    var hits := RankShown(client, index, visible, s, principal, query);
    return Outcome(hits, lag);
  }

  method ShowRows(metas: seq<Meta>, principal: Principal, query: Query) returns (visible: seq<Meta>)
    ensures visible == Shown(metas, principal, query)
  {
    var matched := SelectRows(metas, Matches(query));
    var denied;
    var gated := (m: Meta) => m.gated;
    visible, denied := AllowedView(principal, matched, gated);
    SameFilter(matched, MayShowAs(principal, gated), MayShow(principal));
  }

  method RankShown(
    client: Client, index: Index, visible: seq<Meta>, s: Setup, principal: Principal, query: Query)
    returns (hits: Option<seq<Found>>)
    requires client.Valid() && index.Valid() && s.Valid() && s.env == client.env && client !in index.Objects()
    modifies client, index.Objects()
    ensures client.Valid() && index.Valid()
    ensures client.vault == old(client.vault) && index.View() == old(index.View())
    ensures hits == HitsOver(s, visible, client.vault, index.View(), principal, query)
  {
    var ids := Ids(visible);
    var dense := Search(index, s.num, principal.tenant, query.embedding, query.topc, ids);
    var readable, texts, scores := client.Score(query.cue, ids);
    TextsAreFresh(s.env, client.vault, query.cue, ids, readable, texts, scores);
    hits := RankVisible(s.fuser, visible, texts, readable, scores, dense, query);
  }

  method SelectRows(metas: seq<Meta>, keep: Meta -> bool) returns (kept: seq<Meta>)
    ensures kept == Filter(metas, keep)
  {
    kept := [];
    for i := 0 to |metas|
      invariant kept == Filter(metas[..i], keep)
    {
      assert metas[..i + 1] == metas[..i] + [metas[i]];
      FilterAppend(metas[..i], [metas[i]], keep);
      if keep(metas[i]) {
        kept := kept + [metas[i]];
      }
    }
    assert metas[..|metas|] == metas;
  }

  method CountPending(metas: seq<Meta>, principal: Principal) returns (lag: nat)
    ensures lag == Lag(metas, principal)
  {
    var pending := SelectRows(metas, Pending());
    var shown := SelectRows(pending, MayShow(principal));
    return |shown|;
  }

  lemma {:induction false} SameFilter<T(!new)>(s: seq<T>, f: T -> bool, g: T -> bool)
    requires forall x :: f(x) == g(x)
    ensures Filter(s, f) == Filter(s, g)
  {
    if s != [] { SameFilter(s[1..], f, g); }
  }

  lemma TextsAreFresh(
    env: Env, v: Vault, cue: string, visible: seq<string>, ids: seq<string>, texts: map<string, string>, scores: seq<real>)
    requires FreshScores(env, v, cue, visible, ids, scores) && IndexTextsOf(env.crypto, v, ids, texts)
    ensures texts == FreshTexts(env, v, visible)
    ensures scores == LexicalScores(env, v, cue, ids)
  {
    assert forall id :: id in ids <==> id in visible && Fresh(env.crypto, v, id).Some?;
    forall id ensures id in texts <==> id in FreshTexts(env, v, visible) { assert id in texts.Keys <==> id in Elements(ids); }
  }

  /** Whatever a recall returns is a row of the tenant's listing that the principal may see, that
      the filters want, and that can be read. */
  lemma RecallDelivers(s: Setup, w: World, principal: Principal, query: Query)
    requires s.Valid()
    ensures var hits := RecallOutcome(s, w, principal, query).hits;
      hits.Some? ==>
        && DeliversHits(hits.value, Ids(Shown(w.metas, principal, query)), query.k, query.adjust.Some? && !query.lexicalOnly)
        && forall i :: 0 <= i < |hits.value| ==> Returnable(s.env, w, principal, query, hits.value[i].id)
  {
    var ids := Ids(Shown(w.metas, principal, query));
    HitsOverDeliver(s, Shown(w.metas, principal, query), w, principal, query);
    forall id | id in Readable(s.env, w.vault, ids) ensures id in ids && Returnable(s.env, w, principal, query, id) {
      ReadableIsReturnable(s.env, w, principal, query, id);
    }
  }

  lemma HitsOverDeliver(s: Setup, shown: seq<Meta>, w: World, principal: Principal, query: Query)
    requires s.Valid()
    ensures var hits := HitsOver(s, shown, w.vault, w.index, principal, query);
      hits.Some? ==>
        DeliversHits(hits.value, Readable(s.env, w.vault, Ids(shown)), query.k, query.adjust.Some? && !query.lexicalOnly)
  {
    var readable := Readable(s.env, w.vault, Ids(shown));
    ReadableIsFresh(s.env, w.vault, Ids(shown));
    HitsDeliver(
      s.fuser, shown, FreshTexts(s.env, w.vault, Ids(shown)), readable, LexicalScores(s.env, w.vault, query.cue, readable),
      Dense(s.num, w.index, principal.tenant, query.embedding, query.topc, Ids(shown)), query);
  }

  lemma ReadableIsReturnable(env: Env, w: World, principal: Principal, query: Query, id: string)
    requires id in Readable(env, w.vault, Ids(Shown(w.metas, principal, query)))
    ensures id in Ids(Shown(w.metas, principal, query)) && Returnable(env, w, principal, query, id)
  {
    var shown := Shown(w.metas, principal, query);
    var i :| 0 <= i < |shown| && Ids(shown)[i] == id;
    assert shown[i] in shown;
  }

  ghost predicate Returnable(env: Env, w: World, principal: Principal, query: Query, id: string) {
    && Fresh(env.crypto, w.vault, id).Some?
    && exists m :: m in w.metas && m.id == id && m.indexed && query.wanted(m) && Visible(principal, m.gated)
  }

  // -- Nothing a principal may not see has any influence -------------------------------------------

  lemma {:induction false} FiltersCommute<T(!new)>(s: seq<T>, p: T -> bool, q: T -> bool)
    ensures Filter(Filter(s, p), q) == Filter(Filter(s, q), p)
  {
    if s != [] {
      var x, rest := s[0], s[1..];
      assert s == [x] + rest;
      FiltersCommute(rest, p, q);
      FilterCons(x, rest, p);
      FilterCons(x, rest, q);
      FilterCons(x, Filter(rest, p), q);
      FilterCons(x, Filter(rest, q), p);
    }
  }

  lemma FilterCons<T(!new)>(x: T, s: seq<T>, p: T -> bool)
    ensures Filter([x] + s, p) == if p(x) then [x] + Filter(s, p) else Filter(s, p)
  {
    assert ([x] + s)[1..] == s;
    assert [] + Filter(s, p) == Filter(s, p);
  }

  /** The indexes agree on the given rows of a tenant: same vectors, or the same entries in
      the same order. */
  ghost predicate IndexesAgree(a: IndexView, b: IndexView, tenant: string, ids: seq<string>) {
    match (a, b)
    case (FileView(ready, file), FileView(ready', file')) =>
      ready == ready' && file.distance == file'.distance
      && AgreeOn(file.table, file'.table, Elements(ids), tenant)
    case (MemoryView(items), MemoryView(items')) =>
      Chosen(items, tenant, Some(Elements(ids))) == Chosen(items', tenant, Some(Elements(ids)))
    case _ => false
  }

  /** The two worlds agree on the rows the principal may see: their metadata in order, their
      texts, and their vectors. Everything else may differ. */
  ghost predicate LookAlike(s: Setup, a: World, b: World, principal: Principal) {
    && Cleared(a, principal) == Cleared(b, principal)
    && (forall id :: id in Ids(Cleared(a, principal)) ==>
          Fresh(s.env.crypto, a.vault, id) == Fresh(s.env.crypto, b.vault, id))
    && (forall ids :: Elements(ids) <= Elements(Ids(Cleared(a, principal))) ==>
          IndexesAgree(a.index, b.index, principal.tenant, ids))
  }

  /** The hits, their scores, signals and collapsed duplicates, and the pending count are the
      same in any two worlds that look alike to the principal. */
  lemma DeniedRowsHaveNoInfluence(s: Setup, a: World, b: World, principal: Principal, query: Query)
    requires s.Valid() && LookAlike(s, a, b, principal)
    ensures RecallOutcome(s, a, principal, query) == RecallOutcome(s, b, principal, query)
  {
    FiltersCommute(a.metas, Matches(query), MayShow(principal));
    FiltersCommute(b.metas, Matches(query), MayShow(principal));
    FiltersCommute(a.metas, Pending(), MayShow(principal));
    FiltersCommute(b.metas, Pending(), MayShow(principal));
    var visible := Filter(Cleared(a, principal), Matches(query));
    IdsOfSome(visible, Cleared(a, principal));
    assert forall id :: id in Ids(visible) ==> id in Elements(Ids(visible));
    SameHits(s, visible, a, b, principal, query);
  }

  lemma SameHits(s: Setup, visible: seq<Meta>, a: World, b: World, principal: Principal, query: Query)
    requires s.Valid() && IndexesAgree(a.index, b.index, principal.tenant, Ids(visible))
    requires forall id :: id in Ids(visible) ==> Fresh(s.env.crypto, a.vault, id) == Fresh(s.env.crypto, b.vault, id)
    ensures HitsOver(s, visible, a.vault, a.index, principal, query) == HitsOver(s, visible, b.vault, b.index, principal, query)
  {
    SameDense(s.num, a.index, b.index, principal.tenant, query.embedding, query.topc, Ids(visible));
    SameTexts(s.env, a.vault, b.vault, query.cue, Ids(visible));
  }

  lemma IdsOfSome(some: seq<Meta>, all: seq<Meta>)
    requires forall m :: m in some ==> m in all
    ensures Elements(Ids(some)) <= Elements(Ids(all))
  {
    forall id | id in Ids(some) ensures id in Ids(all) {
      var i :| 0 <= i < |some| && Ids(some)[i] == id;
      assert some[i] in all;
      var j :| 0 <= j < |all| && all[j] == some[i];
      assert Ids(all)[j] == id;
    }
  }

  lemma SameDense(num: Numeric, a: IndexView, b: IndexView, tenant: string, q: Vector, n: int, ids: seq<string>)
    requires num.Valid() && IndexesAgree(a, b, tenant, ids)
    ensures Dense(num, a, tenant, q, n, ids) == Dense(num, b, tenant, q, n, ids)
  {
    if a.FileView? { AllowListMeaning(a.file, b.file, tenant, q, ids); }
  }

  lemma SameTexts(env: Env, v: Vault, w: Vault, cue: string, ids: seq<string>)
    requires forall id :: id in ids ==> Fresh(env.crypto, v, id) == Fresh(env.crypto, w, id)
    ensures Readable(env, v, ids) == Readable(env, w, ids)
    ensures FreshTexts(env, v, ids) == FreshTexts(env, w, ids)
    ensures AllFresh(env, v, Readable(env, v, ids)) && AllFresh(env, w, Readable(env, v, ids))
    ensures LexicalScores(env, v, cue, Readable(env, v, ids)) == LexicalScores(env, w, cue, Readable(env, v, ids))
  {
    SameFilterOn(ids, (id: string) => Fresh(env.crypto, v, id).Some?, (id: string) => Fresh(env.crypto, w, id).Some?);
    ReadableIsFresh(env, v, ids);
    ReadableIsFresh(env, w, ids);
    var readable := Readable(env, v, ids);
    forall i | 0 <= i < |readable| ensures Fresh(env.crypto, v, readable[i]) == Fresh(env.crypto, w, readable[i]) {
      assert readable[i] in readable;
    }
    assert DocsOf(env, v, readable) == DocsOf(env, w, readable);
  }

  lemma {:induction false} SameFilterOn<T(!new)>(s: seq<T>, f: T -> bool, g: T -> bool)
    requires forall x :: x in s ==> f(x) == g(x)
    ensures Filter(s, f) == Filter(s, g)
  {
    if s != [] { SameFilterOn(s[1..], f, g); }
  }
}
