/** BM25 over tokenised documents: the prepared statistics and the scores read from them. */
module Bm25 {
  import opened Common

  type Word = string
  type Doc = seq<Word>

  // -- What the statistics mean ----------------------------------------------------------------

  function Occurrences(doc: Doc, w: Word): nat {
    multiset(doc)[w]
  }

  function DocsWith(docs: seq<Doc>, w: Word): nat {
    if docs == [] then 0
    else DocsWith(docs[..|docs| - 1], w) + if w in docs[|docs| - 1] then 1 else 0
  }

  function TotalLength(docs: seq<Doc>): nat {
    if docs == [] then 0 else TotalLength(docs[..|docs| - 1]) + |docs[|docs| - 1]|
  }

  /** The mean document length, or 1 when that is zero. */
  function AverageLength(docs: seq<Doc>): (r: real)
    ensures r > 0.0
  {
    if docs == [] || TotalLength(docs) == 0 then 1.0 else TotalLength(docs) as real / |docs| as real
  }

  datatype Corpus = Corpus(
    n: nat, doclen: seq<nat>, avgdl: real, df: map<Word, nat>, tfs: seq<map<Word, nat>>)

  ghost predicate CountsOf(c: map<Word, nat>, doc: Doc) {
    c.Keys == Elements(doc) && forall w :: w in c ==> c[w] == Occurrences(doc, w)
  }

  ghost predicate FrequenciesOf(df: map<Word, nat>, docs: seq<Doc>) {
    forall w :: (w in df <==> DocsWith(docs, w) > 0) && (w in df ==> df[w] == DocsWith(docs, w))
  }

  ghost predicate Describes(c: Corpus, docs: seq<Doc>) {
    && c.n == |docs| == |c.doclen| == |c.tfs| && c.avgdl == AverageLength(docs)
    && (forall i :: 0 <= i < |docs| ==> c.doclen[i] == |docs[i]| && CountsOf(c.tfs[i], docs[i]))
    && FrequenciesOf(c.df, docs)
  }

  function Get(m: map<Word, nat>, w: Word): nat {
    if w in m then m[w] else 0
  }

  method CountWords(doc: Doc) returns (c: map<Word, nat>)
    ensures CountsOf(c, doc)
  {
    c := map[];
    for i := 0 to |doc|
      invariant CountsOf(c, doc[..i])
    {
      assert doc[..i + 1] == doc[..i] + [doc[i]];
      c := c[doc[i] := Get(c, doc[i]) + 1];
    }
    assert doc[..|doc|] == doc;
  }

  /** Every word of `c` once: each counts one more document. */
  method AddDocument(df: map<Word, nat>, c: map<Word, nat>, ghost docs: seq<Doc>, ghost doc: Doc)
    returns (more: map<Word, nat>)
    requires FrequenciesOf(df, docs) && CountsOf(c, doc)
    ensures FrequenciesOf(more, docs + [doc])
  {
    more := df;
    var todo := c.Keys;
    while todo != {}
      invariant todo <= c.Keys
      invariant forall w :: w in c.Keys - todo ==> w in more && more[w] == Get(df, w) + 1
      invariant forall w :: w !in c.Keys - todo ==> (w in more <==> w in df) && Get(more, w) == Get(df, w)
      decreases todo
    {
      var w :| w in todo;
      todo := todo - {w};
      more := more[w := Get(more, w) + 1];
    }
    assert (docs + [doc])[..|docs|] == docs;
    assert forall w :: w in c <==> w in doc;
  }

  method PrepareCorpus(docs: seq<Doc>) returns (corpus: Corpus)
    ensures Describes(corpus, docs)
  {
    if docs == [] {
      return Corpus(0, [], 1.0, map[], []);
    }
    var df: map<Word, nat>, tfs: seq<map<Word, nat>>, doclen: seq<nat>, total := map[], [], [], 0;
    for i := 0 to |docs|
      invariant |tfs| == |doclen| == i && total == TotalLength(docs[..i]) && FrequenciesOf(df, docs[..i])
      invariant forall k :: 0 <= k < i ==> doclen[k] == |docs[k]| && CountsOf(tfs[k], docs[k])
    {
      assert docs[..i + 1] == docs[..i] + [docs[i]];
      assert docs[..i + 1][..i] == docs[..i];
      var c := CountWords(docs[i]);
      df := AddDocument(df, c, docs[..i], docs[i]);
      tfs, doclen, total := tfs + [c], doclen + [|docs[i]|], total + |docs[i]|;
    }
    assert docs[..|docs|] == docs;
    corpus := Corpus(|docs|, doclen, if total == 0 then 1.0 else total as real / |docs| as real, df, tfs);
  }

  // -- Scores -----------------------------------------------------------------------------------

  const K1 := 1.5
  const B := 0.75

  /** The share of one query word in one document's score. */
  function Weight(log: real -> real, n: nat, containing: nat, f: nat, length: nat, average: real): real
    requires f > 0 && average > 0.0
  {
    var idf := log(1.0 + (n as real - containing as real + 0.5) / (containing as real + 0.5));
    var relative := length as real / average;
    PositiveShare(f, length, average);
    idf * (f as real * (K1 + 1.0)) / (f as real + K1 * (1.0 - B + B * relative))
  }

  lemma PositiveShare(f: nat, length: nat, average: real)
    requires f > 0 && average > 0.0
    ensures f as real + K1 * (1.0 - B + B * (length as real / average)) > 0.0
  {
    assert length as real / average >= 0.0;
  }

  lemma ZeroFactor(d: real, c: real)
    requires c > 0.0 && d * c == 0.0
    ensures d == 0.0
  {
    if d > 0.0 { PositiveProduct(d, c); }
    if d < 0.0 { PositiveProduct(-d, c); }
  }

  lemma PositiveProduct(a: real, b: real)
    requires a > 0.0 && b > 0.0
    ensures a * b > 0.0
  {
  }

  lemma OnePlusQuotient(x: real, c: real)
    requires c > 0.0
    ensures 1.0 + x / c == (c + x) / c
  {
    var y, z := x / c, (c + x) / c;
    assert y * c == x && z * c == c + x;
    assert (z - (1.0 + y)) * c == 0.0;
    ZeroFactor(z - (1.0 + y), c);
  }

  /** The weight with its constants worked out: the rarer the word, the larger the logarithm's
      argument; the share of the word grows with its count towards 5/2 and shrinks with the
      document's length relative to the mean. */
  lemma WeightForm(log: real -> real, n: nat, containing: nat, f: nat, length: nat, average: real)
    requires f > 0 && average > 0.0
    ensures f as real + 0.375 + 1.125 * (length as real / average) > 0.0
    ensures Weight(log, n, containing, f, length, average) ==
      log((n + 1) as real / (containing as real + 0.5))
      * (f as real * 2.5) / (f as real + 0.375 + 1.125 * (length as real / average))
  {
    var c := containing as real + 0.5;
    assert length as real / average >= 0.0;
    OnePlusQuotient(n as real - containing as real + 0.5, c);
    assert c + (n as real - containing as real + 0.5) == (n + 1) as real;
    var x := length as real / average;
    assert K1 * (1.0 - B + B * x) == 0.375 + 1.125 * x;
  }

  function Term(log: real -> real, docs: seq<Doc>, i: nat, w: Word): real
    requires i < |docs|
  {
    if DocsWith(docs, w) == 0 || Occurrences(docs[i], w) == 0 then 0.0
    else Weight(log, |docs|, DocsWith(docs, w), Occurrences(docs[i], w), |docs[i]|, AverageLength(docs))
  }

  // -- The counts behind a score ------------------------------------------------------------------

  function Positions(doc: Doc, w: Word): set<nat> {
    set p | 0 <= p < |doc| && doc[p] == w
  }

  function Holding(docs: seq<Doc>, w: Word): set<nat> {
    set k | 0 <= k < |docs| && w in docs[k]
  }

  /** All places of words, by document and position. */
  function Places(docs: seq<Doc>): set<(nat, nat)> {
    set k, p | 0 <= k < |docs| && 0 <= p < |docs[k]| :: (k, p)
  }

  lemma {:induction false} OccurrencesCount(doc: Doc, w: Word)
    ensures Occurrences(doc, w) == |Positions(doc, w)|
  {
    if doc != [] {
      var init, last := doc[..|doc| - 1], doc[|doc| - 1];
      OccurrencesCount(init, w);
      assert doc == init + [last];
      assert Positions(doc, w) == Positions(init, w) + if last == w then {|init|} else {};
    }
  }

  lemma {:induction false} DocsWithCounts(docs: seq<Doc>, w: Word)
    ensures DocsWith(docs, w) == |Holding(docs, w)|
  {
    if docs != [] {
      var init, last := docs[..|docs| - 1], docs[|docs| - 1];
      DocsWithCounts(init, w);
      assert docs == init + [last];
      assert Holding(docs, w) == Holding(init, w) + if w in last then {|init|} else {};
    }
  }

  /** The places of a document of `n` words. */
  function RowOf(k: nat, n: nat): (row: set<(nat, nat)>)
    ensures |row| == n && forall e :: e in row <==> e.0 == k && e.1 < n
  {
    if n == 0 then {} else RowOf(k, n - 1) + {(k, n - 1)}
  }

  lemma {:induction false} TotalLengthCounts(docs: seq<Doc>)
    ensures TotalLength(docs) == |Places(docs)|
  {
    if docs != [] {
      TotalLengthCounts(docs[..|docs| - 1]);
      PlacesGrow(docs);
    }
  }

  lemma PlacesGrow(docs: seq<Doc>)
    requires docs != []
    ensures var n := |docs| - 1;
      var row := RowOf(n, |docs[n]|);
      Places(docs) == Places(docs[..n]) + row && Places(docs[..n]) !! row
  {
  }

  /** What one query word adds to one document, from the documents alone: nothing if the document
      does not hold it; else the weight for the number of its positions, the number of documents that
      hold it, and the document's length relative to the mean. */
  lemma TermForm(log: real -> real, docs: seq<Doc>, i: nat, w: Word)
    requires i < |docs|
    ensures AverageLength(docs) > 0.0
    ensures docs[i] != [] ==> AverageLength(docs) == |Places(docs)| as real / |docs| as real
    ensures |Positions(docs[i], w)| as real + 0.375 + 1.125 * (|docs[i]| as real / AverageLength(docs)) > 0.0
    ensures Term(log, docs, i, w) ==
      if w !in docs[i] then 0.0
      else
        log((|docs| + 1) as real / (|Holding(docs, w)| as real + 0.5))
        * (|Positions(docs[i], w)| as real * 2.5)
        / (|Positions(docs[i], w)| as real + 0.375 + 1.125 * (|docs[i]| as real / AverageLength(docs)))
  {
    OccurrencesCount(docs[i], w);
    DocsWithCounts(docs, w);
    TotalLengthCounts(docs);
    if docs[i] != [] { assert (i, 0) in Places(docs); }
    assert |docs[i]| as real / AverageLength(docs) >= 0.0;
    if w in docs[i] {
      assert i in Holding(docs, w);
      WeightForm(log, |docs|, DocsWith(docs, w), Occurrences(docs[i], w), |docs[i]|, AverageLength(docs));
    }
  }

  /** The score of document `i`: the sum over the distinct query words, in any order. */
  ghost function Score(log: real -> real, docs: seq<Doc>, i: nat, words: set<Word>): real
    requires i < |docs|
  {
    if words == {} then 0.0
    else
      var w :| w in words;
      Term(log, docs, i, w) + Score(log, docs, i, words - {w})
  }

  lemma {:induction false} AnyOrder(log: real -> real, docs: seq<Doc>, i: nat, words: set<Word>, w: Word)
    requires i < |docs| && w in words
    ensures Score(log, docs, i, words) == Term(log, docs, i, w) + Score(log, docs, i, words - {w})
    decreases |words|
  {
    var v :| v in words && Score(log, docs, i, words) == Term(log, docs, i, v) + Score(log, docs, i, words - {v});
    if v != w {
      AnyOrder(log, docs, i, words - {v}, w);
      AnyOrder(log, docs, i, words - {w}, v);
      assert words - {v} - {w} == words - {w} - {v};
    }
  }

  ghost predicate ScoresOf(log: real -> real, docs: seq<Doc>, words: set<Word>, s: seq<real>) {
    |s| == |docs| && forall i :: 0 <= i < |docs| ==> s[i] == Score(log, docs, i, words)
  }

  /** Scores read from the statistics are the scores of the documents. */
  method ScorePrepared(log: real -> real, query: Doc, corpus: Corpus, ghost docs: seq<Doc>) returns (s: seq<real>)
    requires Describes(corpus, docs)
    ensures ScoresOf(log, docs, Elements(query), s)
  {
    s := seq(corpus.n, _ => 0.0);
    var todo := Elements(query);
    ghost var done: set<Word> := {};
    while todo != {}
      invariant done == Elements(query) - todo && todo <= Elements(query)
      invariant ScoresOf(log, docs, done, s)
      decreases todo
    {
      var w :| w in todo;
      todo := todo - {w};
      s := AddWord(log, w, corpus, docs, done, s);
      done := done + {w};
    }
    assert done == Elements(query);
  }

  /** One query word: a word no document holds is skipped, and so is a document without it. */
  method AddWord(
    log: real -> real, w: Word, corpus: Corpus, ghost docs: seq<Doc>, ghost done: set<Word>, s: seq<real>)
    returns (more: seq<real>)
    requires Describes(corpus, docs) && w !in done && ScoresOf(log, docs, done, s)
    ensures ScoresOf(log, docs, done + {w}, more)
  {
    more := s;
    var n := Get(corpus.df, w);
    assert n == DocsWith(docs, w);
    for i := 0 to |s|
      invariant |more| == |s|
      invariant forall k :: 0 <= k < i ==> more[k] == s[k] + Term(log, docs, k, w)
      invariant forall k :: i <= k < |s| ==> more[k] == s[k]
    {
      var f := Get(corpus.tfs[i], w);
      assert CountsOf(corpus.tfs[i], docs[i]);
      assert f == Occurrences(docs[i], w);
      if n > 0 && f > 0 {
        more := more[i := more[i] + Weight(log, corpus.n, n, f, corpus.doclen[i], corpus.avgdl)];
      }
    }
    forall k | 0 <= k < |s| ensures more[k] == Score(log, docs, k, done + {w}) {
      AnyOrder(log, docs, k, done + {w}, w);
      assert done + {w} - {w} == done;
    }
  }
}
