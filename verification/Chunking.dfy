/** From the blocks of a document to its chunks: split to size, packed greedily, overlapped. */
module Chunking {
  import opened Common
  import opened Tokenizer
  import opened DocumentBlocks

  datatype Chunk = Chunk(ordinal: nat, text: string, start: nat, end: nat, tokens: nat)

  // -- Tilings --------------------------------------------------------------------------------

  ghost predicate NoAlnum(text: string, lo: nat, hi: nat) {
    lo <= hi <= |text| && forall p :: lo <= p < hi ==> !IsAlnum(text[p])
  }

  predicate IsCounted(text: string, span: Span) {
    span.start < span.end <= |text| && span.tokens == Count(text, span.start, span.end)
  }

  /** Spans of text[lo..hi] with a gap between any two, correct counts, and nothing
      alphanumeric before, between or after them. */
  ghost predicate Tiles(text: string, spans: seq<Span>, lo: nat, hi: nat) {
    if spans == [] then NoAlnum(text, lo, hi)
    else
      var before, last := spans[..|spans| - 1], spans[|spans| - 1];
      && IsCounted(text, last) && last.end <= hi && NoAlnum(text, last.end, hi)
      && EndsBefore(before, last.start) && Tiles(text, before, lo, last.start)
  }

  lemma {:induction false} TilesInBounds(text: string, spans: seq<Span>, lo: nat, hi: nat)
    requires Tiles(text, spans, lo, hi)
    ensures lo <= hi <= |text| && InBounds(spans, hi)
    ensures forall i :: 0 <= i < |spans| ==> lo <= spans[i].start && IsCounted(text, spans[i])
  {
    if spans != [] {
      var before := spans[..|spans| - 1];
      TilesInBounds(text, before, lo, spans[|spans| - 1].start);
      assert spans == before + [spans[|spans| - 1]];
      BoundsAdded(before, spans[|spans| - 1].start, spans[|spans| - 1], hi);
    }
  }

  lemma {:induction false} TilesCover(text: string, spans: seq<Span>, lo: nat, hi: nat, p: nat)
    requires Tiles(text, spans, lo, hi) && lo <= p < hi <= |text| && IsAlnum(text[p])
    ensures Covered(spans, p)
  {
    var last := spans[|spans| - 1];
    if p < last.start {
      var before := spans[..|spans| - 1];
      TilesCover(text, before, lo, last.start, p);
      var i :| 0 <= i < |before| && before[i].start <= p < before[i].end;
      assert spans[i] == before[i];
    }
  }

  lemma LastEndsBefore(a: seq<Span>, b: seq<Span>, p: nat)
    requires EndsBefore(b, p) && (b == [] ==> EndsBefore(a, p))
    ensures EndsBefore(a + b, p)
  {
  }

  lemma {:induction false} TilesConcat(text: string, a: seq<Span>, b: seq<Span>, lo: nat, mid: nat, hi: nat)
    requires Tiles(text, a, lo, mid) && Tiles(text, b, mid, hi)
    requires b != [] ==> EndsBefore(a, b[0].start)
    ensures Tiles(text, a + b, lo, hi)
  {
    if b == [] {
      assert a + b == a;
    } else {
      var before, last := b[..|b| - 1], b[|b| - 1];
      TilesConcat(text, a, before, lo, mid, last.start);
      assert a + b == (a + before) + [last];
      LastEndsBefore(a, before, last.start);
      AddTile(text, a + before, last, lo, hi);
    }
  }

  lemma AddTile(text: string, before: seq<Span>, last: Span, lo: nat, hi: nat)
    requires Tiles(text, before, lo, last.start) && EndsBefore(before, last.start)
    requires IsCounted(text, last) && last.end <= hi && NoAlnum(text, last.end, hi)
    ensures Tiles(text, before + [last], lo, hi)
  {
    assert (before + [last])[..|before|] == before;
  }

  // -- Splitting to size ------------------------------------------------------------------------

  /** Consecutive runs of `limit` tokens, each from the start of its first to the end of its last. */
  function Windows(m: seq<Token>, limit: nat): seq<Span>
    requires limit > 0
  {
    if m == [] then []
    else
      var n := if limit <= |m| then limit else |m|;
      [Span(m[0].start, m[n - 1].end, n)] + Windows(m[n..], limit)
  }

  function Split(text: string, span: Span, limit: nat): seq<Span>
    requires limit > 0 && span.start <= span.end <= |text|
  {
    if span.tokens <= limit || Tokens(text, span.start, span.end) == [] then [span]
    else Windows(Tokens(text, span.start, span.end), limit)
  }

  predicate Inside(text: string, spans: seq<Span>) {
    forall i :: 0 <= i < |spans| ==> spans[i].start <= spans[i].end <= |text|
  }

  function SplitAll(text: string, spans: seq<Span>, limit: nat): seq<Span>
    requires limit > 0 && Inside(text, spans)
  {
    if spans == [] then []
    else SplitAll(text, spans[..|spans| - 1], limit) + Split(text, spans[|spans| - 1], limit)
  }

  method SizeBoundSpans(text: string, spans: seq<Span>, limit: nat) returns (out: seq<Span>)
    requires limit > 0 && Inside(text, spans)
    ensures out == SplitAll(text, spans, limit)
  {
    out := [];
    for i := 0 to |spans|
      invariant out == SplitAll(text, spans[..i], limit)
    {
      assert spans[..i + 1][..i] == spans[..i];
      var span := spans[i];
      if span.tokens <= limit {
        out := out + [span];
      } else {
        var matches := Tokens(text, span.start, span.end);
        out := if matches == [] then out + [span] else out;
        out := AppendWindows(out, matches, limit);
      }
    }
    assert spans[..|spans|] == spans;
  }

  /** One span for every `limit` matches. */
  method AppendWindows(spans: seq<Span>, matches: seq<Token>, limit: nat) returns (out: seq<Span>)
    requires limit > 0
    ensures out == spans + Windows(matches, limit)
  {
    out := spans;
    var k := 0;
    assert From(matches, 0) == matches;
    while k < |matches|
      invariant 0 <= k && WindowsLeft(spans, matches, limit, k, out)
    {
      var n := if k + limit <= |matches| then limit else |matches| - k;
      WindowsLeftStep(spans, matches, limit, k, n, out);
      out := out + [Span(matches[k].start, matches[k + n - 1].end, n)];
      k := k + limit;
    }
    assert Windows(From(matches, k), limit) == [];
  }

  /** What is still to be appended from match `k` on. */
  ghost predicate WindowsLeft(spans: seq<Span>, matches: seq<Token>, limit: nat, k: nat, out: seq<Span>)
    requires limit > 0
  {
    out + Windows(From(matches, k), limit) == spans + Windows(matches, limit)
  }

  lemma WindowsLeftStep(spans: seq<Span>, matches: seq<Token>, limit: nat, k: nat, n: nat, out: seq<Span>)
    requires limit > 0 && k < |matches| && n == (if k + limit <= |matches| then limit else |matches| - k)
    requires WindowsLeft(spans, matches, limit, k, out)
    ensures WindowsLeft(
      spans, matches, limit, k + limit, out + [Span(matches[k].start, matches[k + n - 1].end, n)])
  {
    WindowsStep(matches, k, n, limit);
    SeqAssociates(out, [Span(matches[k].start, matches[k + n - 1].end, n)], Windows(From(matches, k + limit), limit));
  }

  lemma WindowsStep(m: seq<Token>, k: nat, n: nat, limit: nat)
    requires limit > 0 && k < |m| && n == (if k + limit <= |m| then limit else |m| - k)
    ensures Windows(From(m, k), limit) == [Span(m[k].start, m[k + n - 1].end, n)] + Windows(From(m, k + limit), limit)
  {
    var rest := From(m, k);
    WindowsUnfold(rest, n, limit);
    assert rest[0] == m[k] && rest[n - 1] == m[k + n - 1];
    assert rest[n..] == From(m, k + limit);
  }

  lemma WindowsUnfold(m: seq<Token>, n: nat, limit: nat)
    requires limit > 0 && m != [] && n == (if limit <= |m| then limit else |m|)
    ensures Windows(m, limit) == [Span(m[0].start, m[n - 1].end, n)] + Windows(m[n..], limit)
  {
  }

  function From<T>(s: seq<T>, k: nat): seq<T> {
    if k <= |s| then s[k..] else []
  }

  ghost predicate AtMost(spans: seq<Span>, limit: nat) {
    forall i :: 0 <= i < |spans| ==> spans[i].tokens <= limit
  }

  lemma {:induction false} WindowsTile(text: string, lo: nat, hi: nat, k: nat, limit: nat)
    requires lo <= hi <= |text| && k < Count(text, lo, hi) && limit > 0
    ensures var m := Tokens(text, lo, hi);
      Tiles(text, Windows(m[k..], limit), m[k].start, hi)
    decreases Count(text, lo, hi) - k
  {
    var m := Tokens(text, lo, hi);
    var n := if k + limit <= |m| then limit else |m| - k;
    var first := FirstWindow(text, lo, hi, k, n);
    assert m[k..][n..] == m[k + n..];
    assert Windows(m[k..], limit) == [first] + Windows(m[k + n..], limit);
    if k + n < |m| {
      WindowsTile(text, lo, hi, k + n, limit);
      PrependTile(text, first, Windows(m[k + n..], limit), m[k + n].start, hi);
    }
  }

  lemma FirstWindow(text: string, lo: nat, hi: nat, k: nat, n: nat) returns (first: Span)
    requires lo <= hi <= |text| && n > 0 && k + n <= Count(text, lo, hi)
    ensures var m := Tokens(text, lo, hi);
      var next := if k + n < |m| then m[k + n].start else hi;
      && first == Span(m[k].start, m[k + n - 1].end, n) && Tiles(text, [first], m[k].start, next)
      && (k + n < |m| ==> first.end < next)
  {
    var m := Tokens(text, lo, hi);
    first := Span(m[k].start, m[k + n - 1].end, n);
    TokensOfHull(text, lo, hi, k, k + n);
    TokenGap(text, lo, hi, k + n - 1);
    TokensInOrder(text, lo, hi);
    OneTile(text, first, if k + n < |m| then m[k + n].start else hi);
  }

  lemma PrependTile(text: string, first: Span, rest: seq<Span>, mid: nat, hi: nat)
    requires Tiles(text, [first], first.start, mid) && Tiles(text, rest, mid, hi)
    requires first.end < mid
    ensures Tiles(text, [first] + rest, first.start, hi)
  {
    TilesInBounds(text, rest, mid, hi);
    TilesConcat(text, [first], rest, first.start, mid, hi);
  }

  lemma {:induction false} WindowsAtMost(m: seq<Token>, limit: nat)
    requires limit > 0
    ensures AtMost(Windows(m, limit), limit)
  {
    if m != [] { WindowsAtMost(m[if limit <= |m| then limit else |m|..], limit); }
  }

  lemma OneTile(text: string, span: Span, hi: nat)
    requires IsCounted(text, span) && NoAlnum(text, span.end, hi)
    ensures Tiles(text, [span], span.start, hi)
  {
    assert [span][..0] == [];
  }

  lemma SplitTiles(text: string, span: Span, limit: nat)
    requires limit > 0 && IsCounted(text, span)
    ensures Tiles(text, Split(text, span, limit), span.start, span.end) && AtMost(Split(text, span, limit), limit)
  {
    var m := Tokens(text, span.start, span.end);
    if span.tokens <= limit {
      OneTile(text, span, span.end);
    } else {
      NoneBeforeFirst(text, span.start, span.end);
      WindowsTile(text, span.start, span.end, 0, limit);
      WindowsAtMost(m, limit);
      assert m[0..] == m;
      TilesConcat(text, [], Windows(m, limit), span.start, m[0].start, span.end);
      assert [] + Windows(m, limit) == Windows(m, limit);
    }
  }

  lemma {:induction false} SplitAllTiles(text: string, spans: seq<Span>, lo: nat, hi: nat, limit: nat)
    requires limit > 0 && Tiles(text, spans, lo, hi) && Inside(text, spans)
    ensures Tiles(text, SplitAll(text, spans, limit), lo, hi)
    ensures spans == [] || EndsBefore(SplitAll(text, spans, limit), spans[|spans| - 1].end + 1)
  {
    if spans != [] {
      var before, last := spans[..|spans| - 1], spans[|spans| - 1];
      SplitAllTiles(text, before, lo, last.start, limit);
      SplitTiles(text, last, limit);
      PiecesTile(text, SplitAll(text, before, limit), Split(text, last, limit), lo, last, hi);
    }
  }

  lemma PiecesTile(text: string, done: seq<Span>, pieces: seq<Span>, lo: nat, last: Span, hi: nat)
    requires Tiles(text, done, lo, last.start) && EndsBefore(done, last.start)
    requires Tiles(text, pieces, last.start, last.end) && NoAlnum(text, last.end, hi)
    ensures Tiles(text, done + pieces, lo, hi) && EndsBefore(done + pieces, last.end + 1)
  {
    TilesInBounds(text, pieces, last.start, last.end);
    TilesInBounds(text, done, lo, last.start);
    TilesConcat(text, done, pieces, lo, last.start, last.end);
    TilesConcat(text, done + pieces, [], lo, last.end, hi);
    assert done + pieces + [] == done + pieces;
  }

  lemma {:induction false} SplitAllAtMost(text: string, spans: seq<Span>, limit: nat)
    requires limit > 0 && Inside(text, spans)
    requires forall i :: 0 <= i < |spans| ==> IsCounted(text, spans[i])
    ensures AtMost(SplitAll(text, spans, limit), limit)
  {
    if spans != [] {
      SplitAllAtMost(text, spans[..|spans| - 1], limit);
      SplitTiles(text, spans[|spans| - 1], limit);
    }
  }

  // -- Packing ------------------------------------------------------------------------------------

  function Sum(group: seq<Span>): nat {
    if group == [] then 0 else Sum(group[..|group| - 1]) + group[|group| - 1].tokens
  }

  lemma SumOfOne(x: Span)
    ensures Sum([x]) == x.tokens
  {
    assert [x][..0] == [];
  }

  /** Greedy grouping: a span joins the last group unless that would exceed the limit. */
  function Groups(spans: seq<Span>, limit: nat): seq<seq<Span>> {
    if spans == [] then [] else Placed(Groups(spans[..|spans| - 1], limit), spans[|spans| - 1], limit)
  }

  function Placed(g: seq<seq<Span>>, x: Span, limit: nat): seq<seq<Span>> {
    if g != [] && Sum(g[|g| - 1]) + x.tokens <= limit then g[..|g| - 1] + [g[|g| - 1] + [x]]
    else g + [[x]]
  }

  function Hull(group: seq<Span>): Span {
    if group == [] then Span(0, 0, 0) else Span(group[0].start, group[|group| - 1].end, Sum(group))
  }

  function Hulls(groups: seq<seq<Span>>): seq<Span> {
    seq(|groups|, i requires 0 <= i < |groups| => Hull(groups[i]))
  }

  function Flatten(groups: seq<seq<Span>>): seq<Span> {
    if groups == [] then [] else Flatten(groups[..|groups| - 1]) + groups[|groups| - 1]
  }

  /** A division of `spans` into groups within the limit, none of which could take one more. */
  ghost predicate GreedyDivision(spans: seq<Span>, limit: nat, groups: seq<seq<Span>>) {
    && Flatten(groups) == spans
    && (forall i :: 0 <= i < |groups| ==> groups[i] != [] && Sum(groups[i]) <= limit)
    && (forall i, j :: 0 <= i && j == i + 1 && j < |groups| && groups[j] != [] ==>
          Sum(groups[i]) + groups[j][0].tokens > limit)
  }

  lemma {:induction false} GroupsAreGreedy(spans: seq<Span>, limit: nat)
    requires AtMost(spans, limit)
    ensures GreedyDivision(spans, limit, Groups(spans, limit))
  {
    if spans != [] {
      var before, x := spans[..|spans| - 1], spans[|spans| - 1];
      GroupsAreGreedy(before, limit);
      assert spans == before + [x];
      PlacedIsGreedy(before, limit, Groups(before, limit), x);
    }
  }

  lemma PlacedIsGreedy(spans: seq<Span>, limit: nat, g: seq<seq<Span>>, x: Span)
    requires GreedyDivision(spans, limit, g) && x.tokens <= limit
    ensures GreedyDivision(spans + [x], limit, Placed(g, x, limit))
  {
    var more := Placed(g, x, limit);
    SumOfOne(x);
    if g != [] && Sum(g[|g| - 1]) + x.tokens <= limit {
      var last := g[|g| - 1];
      SumGrows(last, x);
      assert more[..|g| - 1] == g[..|g| - 1];
      assert Flatten(more) == Flatten(g[..|g| - 1]) + (last + [x]) == Flatten(g) + [x];
    } else {
      assert more[..|g|] == g;
    }
  }

  lemma SumGrows(group: seq<Span>, x: Span)
    ensures Sum(group + [x]) == Sum(group) + x.tokens
  {
    assert (group + [x])[..|group|] == group;
  }

  /** The packing loop, with the group being filled in three variables. */
  method PackSpans(spans: seq<Span>, limit: nat) returns (packed: seq<Span>)
    requires forall i :: 0 <= i < |spans| ==> spans[i].start < spans[i].end
    ensures packed == Hulls(Groups(spans, limit))
  {
    packed := [];
    var current: Option<Span> := None;
    for i := 0 to |spans|
      invariant current.None? <==> i == 0
      invariant current.None? ==> packed == []
      invariant current.Some? ==> Filling(Groups(spans[..i], limit), packed, current.value)
    {
      var span := spans[i];
      assert spans[..i + 1][..i] == spans[..i];
      FillingGrows(Groups(spans[..i], limit), limit, packed, current, span);
      if current.Some? && current.value.tokens + span.tokens > limit {
        packed := packed + [current.value];
        current := None;
      }
      current := if current.None? then Some(span)
                 else Some(Span(current.value.start, span.end, current.value.tokens + span.tokens));
    }
    assert spans[..|spans|] == spans;
    if current.Some? {
      packed := packed + [current.value];
    }
  }

  ghost predicate NoneEmpty(groups: seq<seq<Span>>) {
    forall i :: 0 <= i < |groups| ==> groups[i] != []
  }

  ghost predicate EndsAt(spans: seq<Span>, end: nat) {
    spans != [] && spans[|spans| - 1].end == end
  }

  /** `packed` are the hulls of all groups but the last, `current` that of the last. */
  ghost predicate Filling(groups: seq<seq<Span>>, packed: seq<Span>, current: Span) {
    && groups != [] && NoneEmpty(groups)
    && packed + [current] == Hulls(groups)
  }

  lemma FillingGrows(g: seq<seq<Span>>, limit: nat, packed: seq<Span>, current: Option<Span>, x: Span)
    requires if current.None? then g == [] && packed == [] else Filling(g, packed, current.value)
    ensures current.None? ==> Filling(Placed(g, x, limit), packed, x)
    ensures current.Some? && current.value.tokens + x.tokens > limit ==>
      Filling(Placed(g, x, limit), packed + [current.value], x)
    ensures current.Some? && current.value.tokens + x.tokens <= limit ==>
      Filling(Placed(g, x, limit), packed, Span(current.value.start, x.end, current.value.tokens + x.tokens))
  {
    SumOfOne(x);
    if current.Some? {
      assert (packed + [current.value])[|g| - 1] == Hull(g[|g| - 1]);
      if current.value.tokens + x.tokens <= limit {
        JoinLast(g, packed, current.value, x);
      } else {
        StartNew(g, packed, current.value, x);
      }
    }
  }

  lemma JoinLast(g: seq<seq<Span>>, packed: seq<Span>, current: Span, x: Span)
    requires Filling(g, packed, current)
    ensures Filling(g[..|g| - 1] + [g[|g| - 1] + [x]], packed, Span(current.start, x.end, current.tokens + x.tokens))
  {
    var last := g[|g| - 1];
    assert (packed + [current])[|g| - 1] == Hull(last);
    assert (last + [x])[..|last|] == last;
    assert Hulls(g)[..|g| - 1] == packed;
  }

  lemma StartNew(g: seq<seq<Span>>, packed: seq<Span>, current: Span, x: Span)
    requires Filling(g, packed, current)
    ensures Filling(g + [[x]], packed + [current], x)
  {
    SumOfOne(x);
  }

  lemma {:induction false} GroupsNonEmpty(spans: seq<Span>, limit: nat)
    ensures NoneEmpty(Groups(spans, limit)) && (Groups(spans, limit) == [] <==> spans == [])
  {
    if spans != [] { GroupsNonEmpty(spans[..|spans| - 1], limit); }
  }

  /** Packing a tiling gives a tiling. */
  lemma {:induction false} PacksTile(text: string, spans: seq<Span>, lo: nat, hi: nat, limit: nat)
    requires Tiles(text, spans, lo, hi)
    ensures Tiles(text, Hulls(Groups(spans, limit)), lo, hi)
    ensures spans != [] ==> EndsAt(Hulls(Groups(spans, limit)), spans[|spans| - 1].end)
  {
    if spans != [] {
      var before, x := spans[..|spans| - 1], spans[|spans| - 1];
      PacksTile(text, before, lo, x.start, limit);
      GroupsNonEmpty(before, limit);
      var g := Groups(before, limit);
      if g != [] && Sum(g[|g| - 1]) + x.tokens <= limit {
        PackGrows(text, g, x, lo, hi);
      } else {
        PackStarts(text, g, x, lo, hi);
      }
    }
  }

  lemma PackStarts(text: string, g: seq<seq<Span>>, x: Span, lo: nat, hi: nat)
    requires Tiles(text, Hulls(g), lo, x.start) && EndsBefore(Hulls(g), x.start)
    requires IsCounted(text, x) && x.end <= hi && NoAlnum(text, x.end, hi)
    ensures Tiles(text, Hulls(g + [[x]]), lo, hi) && EndsAt(Hulls(g + [[x]]), x.end)
  {
    SumOfOne(x);
    assert Hulls(g + [[x]])[..|g|] == Hulls(g);
  }

  lemma PackGrows(text: string, g: seq<seq<Span>>, x: Span, lo: nat, hi: nat)
    requires g != [] && g[|g| - 1] != [] && Tiles(text, Hulls(g), lo, x.start) && EndsBefore(Hulls(g), x.start)
    requires IsCounted(text, x) && x.end <= hi && NoAlnum(text, x.end, hi)
    ensures var more := Hulls(g[..|g| - 1] + [g[|g| - 1] + [x]]);
      Tiles(text, more, lo, hi) && EndsAt(more, x.end)
  {
    var last, h := g[|g| - 1], Hull(g[|g| - 1]);
    assert (last + [x])[..|last|] == last;
    var grown := Span(h.start, x.end, h.tokens + x.tokens);
    assert Hull(last + [x]) == grown;
    HullGrows(text, h, x);
    var more := Hulls(g[..|g| - 1] + [last + [x]]);
    assert more[..|g| - 1] == Hulls(g)[..|g| - 1] && more[|g| - 1] == grown;
  }

  lemma HullGrows(text: string, h: Span, x: Span)
    requires IsCounted(text, h) && IsCounted(text, x) && h.end < x.start && NoAlnum(text, h.end, x.start)
    ensures IsCounted(text, Span(h.start, x.end, h.tokens + x.tokens))
  {
    TokensSplit(text, h.start, h.end, x.end);
    TokensSplit(text, h.end, x.start, x.end);
    NoTokens(text, h.end, x.start);
  }

  // -- Overlap --------------------------------------------------------------------------------------

  /** Where a chunk begins once it repeats up to `overlap` tokens of the text before `s`. */
  function Back(text: string, s: nat, overlap: nat): nat
    requires s <= |text| && overlap > 0
  {
    var before := Tokens(text, 0, s);
    if before == [] then s else before[if |before| <= overlap then 0 else |before| - overlap].start
  }

  function Expanded(text: string, spans: seq<Span>, overlap: nat, i: nat): Span
    requires i < |spans| && Inside(text, spans) && overlap > 0
  {
    TokensInOrder(text, 0, spans[i].start);
    var start := if i == 0 then spans[i].start else Back(text, spans[i].start, overlap);
    Span(start, spans[i].end, Count(text, start, spans[i].end))
  }

  function Overlapped(text: string, spans: seq<Span>, overlap: nat): seq<Span>
    requires Inside(text, spans)
  {
    if overlap == 0 || |spans| < 2 then spans
    else seq(|spans|, i requires 0 <= i < |spans| => Expanded(text, spans, overlap, i))
  }

  /** The search for the first token at or after a boundary stops behind the tokens before it. */
  lemma TokensBefore(text: string, s: nat, k: nat)
    requires 0 < s <= |text| && !IsAlnum(text[s - 1])
    ensures Tokens(text, 0, s) <= Tokens(text, 0, |text|)
    ensures k < Count(text, 0, |text|) ==> (Tokens(text, 0, |text|)[k].start >= s <==> k >= Count(text, 0, s))
  {
    TokensSplit(text, 0, s, |text|);
    TokensInOrder(text, 0, s);
    TokensInOrder(text, s, |text|);
    var before, after := Tokens(text, 0, s), Tokens(text, s, |text|);
    if |before| <= k < Count(text, 0, |text|) {
      assert Tokens(text, 0, |text|)[k] == after[k - |before|];
    }
  }

  method ApplyOverlap(text: string, spans: seq<Span>, overlap: nat) returns (out: seq<Span>)
    requires Tiles(text, spans, 0, |text|) && Inside(text, spans)
    ensures out == Overlapped(text, spans, overlap)
  {
    if overlap == 0 || |spans| < 2 {
      return spans;
    }
    TilesInBounds(text, spans, 0, |text|);
    var tokens := Tokens(text, 0, |text|);
    out := [];
    for i := 0 to |spans|
      invariant |out| == i
      invariant forall k :: 0 <= k < i ==> out[k] == Expanded(text, spans, overlap, k)
    {
      var start := spans[i].start;
      if i > 0 {
        GapBefore(text, spans, i);
        start := Rewound(text, tokens, spans[i].start, overlap);
      }
      TokensInOrder(text, 0, spans[i].start);
      out := out + [Span(start, spans[i].end, Count(text, start, spans[i].end))];
    }
  }

  method Rewound(text: string, tokens: seq<Token>, s: nat, overlap: nat) returns (start: nat)
    requires tokens == Tokens(text, 0, |text|) && 0 < s <= |text| && !IsAlnum(text[s - 1]) && overlap > 0
    ensures start == Back(text, s, overlap)
  {
    var k := 0;
    while k < |tokens| && tokens[k].start < s
      invariant 0 <= k <= |tokens|
      invariant forall j :: 0 <= j < k ==> tokens[j].start < s
    {
      k := k + 1;
    }
    var before := Count(text, 0, s);
    TokensBefore(text, s, k);
    TokensBefore(text, s, before);
    start := s;
    if k > 0 {
      start := tokens[if k <= overlap then 0 else k - overlap].start;
    }
  }

  lemma GapBefore(text: string, spans: seq<Span>, i: nat)
    requires Tiles(text, spans, 0, |text|) && 0 < i < |spans|
    ensures 0 < spans[i].start <= |text| && !IsAlnum(text[spans[i].start - 1])
  {
    TilesInBounds(text, spans, 0, |text|);
    NotCoveredBefore(spans, |text|, i);
    if IsAlnum(text[spans[i].start - 1]) { TilesCover(text, spans, 0, |text|, spans[i].start - 1); }
  }

  lemma NotCoveredBefore(spans: seq<Span>, hi: nat, i: nat)
    requires InBounds(spans, hi) && 0 < i < |spans|
    ensures 0 < spans[i].start && !Covered(spans, spans[i].start - 1)
  {
    assert spans[i - 1].end < spans[i].start;
    forall j | 0 <= j < |spans| ensures !(spans[j].start <= spans[i].start - 1 < spans[j].end) {
      assert j < i ==> spans[j].end < spans[i].start;
      assert i < j ==> spans[i].end < spans[j].start;
    }
  }

  // -- Chunks ----------------------------------------------------------------------------------------

  datatype Refusal = TargetNotPositive | OverlapNegative | OverlapTooLarge

  function PacksOf(text: string, blocks: seq<Span>, target: nat): seq<Span>
    requires target > 0 && Inside(text, blocks)
  {
    Hulls(Groups(SplitAll(text, blocks, target), target))
  }

  function ChunksOf(text: string, spans: seq<Span>): seq<Chunk>
    requires Inside(text, spans)
  {
    seq(|spans|, i requires 0 <= i < |spans| =>
      var part := text[spans[i].start..spans[i].end];
      Chunk(i, part, spans[i].start, spans[i].end, Count(part, 0, |part|)))
  }

  ghost predicate AreBlocksOf(text: string, blocks: seq<Span>) {
    Blocks(text, blocks, |text|) && AllBlocks(text, blocks, |text|)
  }

  ghost function Finished(text: string, blocks: seq<Span>, target: nat, overlap: nat): seq<Chunk>
    requires target > 0 && AreBlocksOf(text, blocks)
  {
    BlocksTile(text, blocks);
    PacksAreSound(text, blocks, target);
    OverlapIsSound(text, PacksOf(text, blocks, target), overlap);
    ChunksOf(text, Overlapped(text, PacksOf(text, blocks, target), overlap))
  }

  /** The chunks made from some blocks of the document (there is one list of them, see
      BlocksAreDetermined). */
  ghost predicate IsChunking(text: string, target: nat, overlap: nat, chunks: seq<Chunk>)
    requires target > 0
  {
    exists blocks :: AreBlocksOf(text, blocks) && chunks == Finished(text, blocks, target, overlap)
  }

  /** The chunks of a document, or the reason the sizes are unusable. */
  method ChunkDocument(text: string, target: int, overlap: int) returns (result: Result<seq<Chunk>, Refusal>)
    ensures match result
            case Err(e) => e ==
              (if target <= 0 then TargetNotPositive else if overlap < 0 then OverlapNegative else OverlapTooLarge)
            case Ok(chunks) => 0 <= overlap < target && IsChunking(text, target, overlap, chunks)
    ensures result.Ok? <==> 0 <= overlap < target
  {
    if target <= 0 {
      return Err(TargetNotPositive);
    }
    if overlap < 0 {
      return Err(OverlapNegative);
    }
    if overlap >= target {
      return Err(OverlapTooLarge);
    }
    if FirstSolid(text, 0) == |text| {
      BlankHasNoChunks(text, target, overlap);
      return Ok([]);
    }
    var blocks := StructuralSpans(text);
    var chunks := ChunkBlocks(text, blocks, target, overlap);
    return Ok(chunks);
  }

  lemma BlankHasNoChunks(text: string, target: nat, overlap: nat)
    requires target > 0 && FirstSolid(text, 0) == |text|
    ensures IsChunking(text, target, overlap, [])
  {
    assert AllBlocks(text, [], |text|);
    assert AreBlocksOf(text, []);
    assert Finished(text, [], target, overlap) == [];
  }

  method ChunkBlocks(text: string, blocks: seq<Span>, target: nat, overlap: nat) returns (chunks: seq<Chunk>)
    requires target > 0 && AreBlocksOf(text, blocks)
    ensures chunks == Finished(text, blocks, target, overlap)
  {
    BlocksTile(text, blocks);
    PacksAreSound(text, blocks, target);
    OverlapIsSound(text, PacksOf(text, blocks, target), overlap);
    var packed := PackBlocks(text, blocks, target);
    var expanded := ApplyOverlap(text, packed, overlap);
    chunks := MakeChunks(text, expanded);
  }

  method PackBlocks(text: string, blocks: seq<Span>, target: nat) returns (packed: seq<Span>)
    requires target > 0 && Tiles(text, blocks, 0, |text|) && Inside(text, blocks)
    ensures packed == PacksOf(text, blocks, target)
  {
    var pieces := SizeBoundSpans(text, blocks, target);
    SplitAllTiles(text, blocks, 0, |text|, target);
    TilesInBounds(text, pieces, 0, |text|);
    packed := PackSpans(pieces, target);
  }

  method MakeChunks(text: string, spans: seq<Span>) returns (chunks: seq<Chunk>)
    requires Inside(text, spans) && forall i :: 0 <= i < |spans| ==> spans[i].start < spans[i].end
    ensures chunks == ChunksOf(text, spans)
  {
    chunks := [];
    for i := 0 to |spans|
      invariant chunks == ChunksOf(text, spans)[..i]
    {
      if spans[i].start < spans[i].end {
        var part := text[spans[i].start..spans[i].end];
        chunks := chunks + [Chunk(i, part, spans[i].start, spans[i].end, Count(part, 0, |part|))];
      }
    }
  }

  /** The blocks of a document tile it. */
  lemma BlocksTile(text: string, blocks: seq<Span>)
    requires Blocks(text, blocks, |text|)
    ensures Tiles(text, blocks, 0, |text|)
  {
    forall n | 0 <= n <= |blocks| ensures GapIsEmpty(text, blocks, n) { NothingBetweenBlocks(text, blocks, n); }
    forall i | 0 <= i < |blocks| ensures IsCounted(text, blocks[i]) { assert IsBlock(text, blocks[i]); }
    PrefixTiles(text, blocks, |blocks|);
    assert blocks[..|blocks|] == blocks;
  }

  function NextStart(text: string, spans: seq<Span>, n: nat): nat {
    if n < |spans| then spans[n].start else |text|
  }

  ghost predicate GapIsEmpty(text: string, spans: seq<Span>, n: nat)
    requires n <= |spans|
  {
    NoAlnum(text, if n > 0 then spans[n - 1].end else 0, NextStart(text, spans, n))
  }

  lemma {:induction false} PrefixTiles(text: string, spans: seq<Span>, n: nat)
    requires InBounds(spans, |text|) && n <= |spans|
    requires forall k :: 0 <= k <= |spans| ==> GapIsEmpty(text, spans, k)
    requires forall i :: 0 <= i < |spans| ==> IsCounted(text, spans[i])
    ensures Tiles(text, spans[..n], 0, NextStart(text, spans, n))
  {
    assert GapIsEmpty(text, spans, n);
    if n > 0 {
      PrefixTiles(text, spans, n - 1);
      assert n > 1 ==> spans[n - 2].end < spans[n - 1].start;
      AddTile(text, spans[..n - 1], spans[n - 1], 0, NextStart(text, spans, n));
      assert spans[..n] == spans[..n - 1] + [spans[n - 1]];
    }
  }

  lemma NothingBetweenBlocks(text: string, blocks: seq<Span>, n: nat)
    requires Blocks(text, blocks, |text|) && n <= |blocks|
    ensures GapIsEmpty(text, blocks, n)
  {
    forall p | (if n > 0 then blocks[n - 1].end else 0) <= p < NextStart(text, blocks, n) ensures !IsAlnum(text[p]) {
      BetweenNotCovered(blocks, |text|, n, p);
    }
  }

  lemma BetweenNotCovered(spans: seq<Span>, hi: nat, n: nat, p: nat)
    requires InBounds(spans, hi) && n <= |spans|
    requires (n > 0 ==> spans[n - 1].end <= p) && (n < |spans| ==> p < spans[n].start)
    ensures !Covered(spans, p)
  {
    forall j | 0 <= j < |spans| ensures !(spans[j].start <= p < spans[j].end) {
      assert j < n - 1 ==> spans[j].end < spans[n - 1].start;
      assert n < j ==> spans[n].end < spans[j].start;
    }
  }

  /** The packs tile the document, and none holds more than `target` tokens. */
  lemma PacksAreSound(text: string, blocks: seq<Span>, target: nat)
    requires target > 0 && Tiles(text, blocks, 0, |text|)
    ensures Inside(text, blocks)
    ensures Tiles(text, PacksOf(text, blocks, target), 0, |text|) && AtMost(PacksOf(text, blocks, target), target)
    ensures Inside(text, PacksOf(text, blocks, target))
  {
    TilesInBounds(text, blocks, 0, |text|);
    SplitAllTiles(text, blocks, 0, |text|, target);
    PacksTile(text, SplitAll(text, blocks, target), 0, |text|, target);
    TilesInBounds(text, PacksOf(text, blocks, target), 0, |text|);
    PacksAtMost(text, blocks, target);
  }

  lemma PacksAtMost(text: string, blocks: seq<Span>, target: nat)
    requires target > 0 && Inside(text, blocks) && forall i :: 0 <= i < |blocks| ==> IsCounted(text, blocks[i])
    ensures AtMost(PacksOf(text, blocks, target), target)
  {
    SplitAllAtMost(text, blocks, target);
    GroupsAreGreedy(SplitAll(text, blocks, target), target);
  }

  /** How far an overlap reaches: exactly `overlap` tokens back, or to the first token. */
  lemma BackIsExact(text: string, s: nat, overlap: nat)
    requires s <= |text| && overlap > 0
    ensures var start := Back(text, s, overlap);
      && start <= s && Count(text, start, s) == (if overlap <= Count(text, 0, s) then overlap else Count(text, 0, s))
  {
    var before := Tokens(text, 0, s);
    TokensInOrder(text, 0, s);
    if before != [] {
      var j := if |before| <= overlap then 0 else |before| - overlap;
      var last := before[|before| - 1].end;
      TokensOfHull(text, 0, s, j, |before|);
      TokenGap(text, 0, s, |before| - 1);
      TokensSplit(text, before[j].start, last, s);
      NoTokens(text, last, s);
    }
  }

  lemma BackClimbs(text: string, s: nat, t: nat, overlap: nat)
    requires s <= t <= |text| && overlap > 0 && (s > 0 ==> !IsAlnum(text[s - 1]))
    ensures Back(text, s, overlap) <= Back(text, t, overlap)
  {
    TokensSplit(text, 0, s, t);
    TokensInOrder(text, 0, t);
    TokensInOrder(text, s, t);
    TokensInOrder(text, 0, s);
  }

  ghost predicate Rewinds(text: string, spans: seq<Span>, overlap: nat, i: nat)
    requires i < |spans| && Inside(text, spans)
  {
    var out := Overlapped(text, spans, overlap);
    && |out| == |spans| && out[i].end == spans[i].end && out[i].start <= spans[i].start < spans[i].end
    && out[i].tokens == Count(text, out[i].start, out[i].end)
    && spans[i].tokens <= out[i].tokens <= spans[i].tokens + overlap
  }

  lemma RewindsEach(text: string, spans: seq<Span>, overlap: nat, i: nat)
    requires Tiles(text, spans, 0, |text|) && Inside(text, spans) && i < |spans|
    ensures Rewinds(text, spans, overlap, i)
  {
    TilesInBounds(text, spans, 0, |text|);
    assert IsCounted(text, spans[i]);
    if overlap > 0 && i > 0 {
      BackIsExact(text, spans[i].start, overlap);
      GapBefore(text, spans, i);
      TokensSplit(text, Back(text, spans[i].start, overlap), spans[i].start, spans[i].end);
    }
  }

  /** Overlapping keeps every end and moves starts back by at most `overlap` tokens. */
  lemma OverlapIsSound(text: string, spans: seq<Span>, overlap: nat)
    requires Tiles(text, spans, 0, |text|) && Inside(text, spans)
    ensures forall i :: 0 <= i < |spans| ==> Rewinds(text, spans, overlap, i)
    ensures Inside(text, Overlapped(text, spans, overlap))
    ensures |Overlapped(text, spans, overlap)| == |spans|
    ensures forall i :: 0 <= i < |spans| ==>
      Overlapped(text, spans, overlap)[i].start < Overlapped(text, spans, overlap)[i].end
  {
    forall i | 0 <= i < |spans| ensures Rewinds(text, spans, overlap, i) { RewindsEach(text, spans, overlap, i); }
    forall i | 0 <= i < |spans|
      ensures var span := Overlapped(text, spans, overlap)[i]; span.start < span.end <= |text|
    {
      assert Rewinds(text, spans, overlap, i);
    }
  }

  lemma StartsNeverDecrease(text: string, spans: seq<Span>, overlap: nat, i: nat, j: nat)
    requires Tiles(text, spans, 0, |text|) && Inside(text, spans) && i < j < |spans|
    ensures var out := Overlapped(text, spans, overlap); out[i].start <= out[j].start && out[i].end < out[j].end
  {
    SpansClimb(text, spans, i, j);
    if overlap > 0 { OverlappedStarts(text, spans, overlap, i, j); }
  }

  lemma OverlappedStarts(text: string, spans: seq<Span>, overlap: nat, i: nat, j: nat)
    requires Tiles(text, spans, 0, |text|) && Inside(text, spans) && i < j < |spans| && overlap > 0
    requires spans[i].start <= spans[j].start
    ensures Overlapped(text, spans, overlap)[i].start <= Overlapped(text, spans, overlap)[j].start
  {
    StartsBack(text, spans, overlap, i);
    StartsBack(text, spans, overlap, j);
    BackClimbs(text, spans[i].start, spans[j].start, overlap);
  }

  lemma SpansClimb(text: string, spans: seq<Span>, i: nat, j: nat)
    requires Tiles(text, spans, 0, |text|) && i < j < |spans|
    ensures spans[i].start < spans[i].end < spans[j].start < spans[j].end <= |text|
  {
    TilesInBounds(text, spans, 0, |text|);
  }

  /** Every start, the first one included, lies `overlap` tokens back. */
  lemma StartsBack(text: string, spans: seq<Span>, overlap: nat, i: nat)
    requires Tiles(text, spans, 0, |text|) && Inside(text, spans) && i < |spans| && |spans| > 1 && overlap > 0
    ensures Overlapped(text, spans, overlap)[i].start == Back(text, spans[i].start, overlap)
    ensures spans[i].start > 0 ==> !IsAlnum(text[spans[i].start - 1])
  {
    if i == 0 { NothingBeforeFirst(text, spans, overlap); } else { GapBefore(text, spans, i); }
  }

  lemma NothingBeforeFirst(text: string, spans: seq<Span>, overlap: nat)
    requires Tiles(text, spans, 0, |text|) && spans != [] && overlap > 0
    ensures spans[0].start <= |text| && Back(text, spans[0].start, overlap) == spans[0].start
    ensures spans[0].start > 0 ==> !IsAlnum(text[spans[0].start - 1])
  {
    TilesInBounds(text, spans, 0, |text|);
    forall p | 0 <= p < spans[0].start ensures !IsAlnum(text[p]) {
      if IsAlnum(text[p]) { TilesCover(text, spans, 0, |text|, p); }
    }
    NoTokens(text, 0, spans[0].start);
  }

  // -- What every chunking satisfies -----------------------------------------------------------------

  ghost predicate ChunkingOf(text: string, target: nat, overlap: nat, packs: seq<Span>, chunks: seq<Chunk>) {
    && |chunks| == |packs|
    && forall i :: 0 <= i < |chunks| ==> ChunkOf(text, target, overlap, i, packs[i], chunks[i])
  }

  /** A chunk is a slice of the source that ends with its pack and begins at most `overlap`
      tokens before it. */
  ghost predicate ChunkOf(text: string, target: nat, overlap: nat, i: nat, pack: Span, c: Chunk) {
    && c.ordinal == i && c.start <= pack.start < pack.end == c.end <= |text|
    && c.text == text[c.start..c.end]
    && c.tokens == Count(c.text, 0, |c.text|) == Count(text, c.start, c.end)
    && pack.tokens <= target && pack.tokens <= c.tokens <= pack.tokens + overlap <= target + overlap
  }

  /** Every chunking of every document. */
  lemma EveryChunking(text: string, blocks: seq<Span>, target: nat, overlap: nat)
    requires target > 0 && AreBlocksOf(text, blocks)
    ensures Inside(text, blocks)
    ensures ChunkingOf(text, target, overlap, PacksOf(text, blocks, target), Finished(text, blocks, target, overlap))
    ensures Tiles(text, PacksOf(text, blocks, target), 0, |text|)
  {
    BlocksTile(text, blocks);
    PacksAreSound(text, blocks, target);
    OverlappedChunks(text, PacksOf(text, blocks, target), target, overlap);
  }

  lemma OverlappedChunks(text: string, packs: seq<Span>, target: nat, overlap: nat)
    requires Tiles(text, packs, 0, |text|) && AtMost(packs, target) && Inside(text, packs)
    ensures Inside(text, Overlapped(text, packs, overlap))
    ensures ChunkingOf(text, target, overlap, packs, ChunksOf(text, Overlapped(text, packs, overlap)))
  {
    OverlapIsSound(text, packs, overlap);
    var chunks := ChunksOf(text, Overlapped(text, packs, overlap));
    forall i | 0 <= i < |chunks| ensures ChunkOf(text, target, overlap, i, packs[i], chunks[i]) {
      OneChunk(text, packs, target, overlap, i);
    }
  }

  lemma OneChunk(text: string, packs: seq<Span>, target: nat, overlap: nat, i: nat)
    requires Inside(text, packs) && Inside(text, Overlapped(text, packs, overlap)) && i < |packs|
    requires Rewinds(text, packs, overlap, i) && packs[i].tokens <= target
    ensures ChunkOf(text, target, overlap, i, packs[i], ChunksOf(text, Overlapped(text, packs, overlap))[i])
  {
    var span := Overlapped(text, packs, overlap)[i];
    SliceTokens(text, span.start, span.start, span.end);
  }

  /** The packs are the greedy division of the pieces: consecutive, within the target, and
      none could take the first piece of the next. */
  lemma PacksAreMaximal(text: string, blocks: seq<Span>, target: nat)
    requires target > 0 && AreBlocksOf(text, blocks)
    ensures Inside(text, blocks)
    ensures GreedyDivision(SplitAll(text, blocks, target), target, Groups(SplitAll(text, blocks, target), target))
  {
    BlocksTile(text, blocks);
    TilesInBounds(text, blocks, 0, |text|);
    SplitAllAtMost(text, blocks, target);
    GroupsAreGreedy(SplitAll(text, blocks, target), target);
  }

  /** Chunk starts never decrease and chunk ends strictly increase. */
  lemma ChunksAdvance(text: string, blocks: seq<Span>, target: nat, overlap: nat, i: nat, j: nat)
    requires target > 0 && AreBlocksOf(text, blocks) && i < j < |Finished(text, blocks, target, overlap)|
    ensures var chunks := Finished(text, blocks, target, overlap);
      chunks[i].start <= chunks[j].start && chunks[i].end < chunks[j].end
  {
    BlocksTile(text, blocks);
    PacksAreSound(text, blocks, target);
    OverlapIsSound(text, PacksOf(text, blocks, target), overlap);
    StartsNeverDecrease(text, PacksOf(text, blocks, target), overlap, i, j);
  }

  /** Every token of the document lies whole in some chunk. */
  lemma NoTokenIsLost(text: string, blocks: seq<Span>, target: nat, overlap: nat, k: nat)
    requires target > 0 && AreBlocksOf(text, blocks) && k < Count(text, 0, |text|)
    ensures var token := Tokens(text, 0, |text|)[k];
      exists c :: c in Finished(text, blocks, target, overlap) && c.start <= token.start && token.end <= c.end
  {
    EveryChunking(text, blocks, target, overlap);
    var packs, chunks := PacksOf(text, blocks, target), Finished(text, blocks, target, overlap);
    var i := WholeInPack(text, packs, k);
    assert ChunkOf(text, target, overlap, i, packs[i], chunks[i]);
    assert chunks[i] in chunks;
  }

  lemma WholeInPack(text: string, packs: seq<Span>, k: nat) returns (i: nat)
    requires Tiles(text, packs, 0, |text|) && k < Count(text, 0, |text|)
    ensures i < |packs|
    ensures var token := Tokens(text, 0, |text|)[k]; packs[i].start <= token.start && token.end <= packs[i].end
  {
    var tokens := Tokens(text, 0, |text|);
    var token := tokens[k];
    TokensInOrder(text, 0, |text|);
    assert InToken(tokens, token.start);
    TokensCover(text, 0, |text|, token.start);
    TilesCover(text, packs, 0, |text|, token.start);
    i :| 0 <= i < |packs| && packs[i].start <= token.start < packs[i].end;
    if packs[i].end < token.end {
      assert InToken(tokens, packs[i].end);
      TokensCover(text, 0, |text|, packs[i].end);
      TilesCover(text, packs, 0, |text|, packs[i].end);
      TilesInBounds(text, packs, 0, |text|);
      EndNotCovered(packs, |text|, i);
    }
  }

  lemma EndNotCovered(spans: seq<Span>, hi: nat, i: nat)
    requires InBounds(spans, hi) && i < |spans|
    ensures !Covered(spans, spans[i].end)
  {
    forall j | 0 <= j < |spans| ensures !(spans[j].start <= spans[i].end < spans[j].end) {
      assert j < i ==> spans[j].end < spans[i].start;
      assert i < j ==> spans[i].end < spans[j].start;
    }
  }
}
