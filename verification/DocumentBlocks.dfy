/** The structure of a document: blocks of lines separated by blank lines and headings. */
module DocumentBlocks {
  import opened Common
  import opened Tokenizer

  datatype Span = Span(start: nat, end: nat, tokens: nat)

  // -- Characters and lines ------------------------------------------------------------------

  predicate IsBreak(c: char) {
    '\n' <= c <= '\r' || '\U{1C}' <= c <= '\U{1E}' || c == '\U{85}' || c == '\U{2028}' || c == '\U{2029}'
  }

  predicate IsSpace(c: char) {
    || '\t' <= c <= '\r' || '\U{1C}' <= c <= ' ' || c == '\U{85}' || c == '\U{A0}' || c == '\U{1680}'
    || '\U{2000}' <= c <= '\U{200A}' || c == '\U{2028}' || c == '\U{2029}' || c == '\U{202F}'
    || c == '\U{205F}' || c == '\U{3000}'
  }

  const BREAKS := "\n\U{0B}\U{0C}\r\U{1C}\U{1D}\U{1E}\U{85}\U{2028}\U{2029}"
  const SPACES :=
    "\t\n\U{0B}\U{0C}\r\U{1C}\U{1D}\U{1E}\U{1F} \U{85}\U{A0}\U{1680}\U{2000}\U{2001}\U{2002}\U{2003}"
    + "\U{2004}\U{2005}\U{2006}\U{2007}\U{2008}\U{2009}\U{200A}\U{2028}\U{2029}\U{202F}\U{205F}\U{3000}"

  /** Exactly the characters that end a line, and exactly the white space. */
  lemma BreakAndSpaceCharacters(c: char)
    ensures IsBreak(c) <==> c in BREAKS
    ensures IsSpace(c) <==> c in SPACES
  {
  }

  predicate Blank(text: string, lo: nat, hi: nat)
    requires lo <= hi <= |text|
  {
    forall p :: lo <= p < hi ==> IsSpace(text[p])
  }

  predicate IsLineStart(text: string, p: nat)
    requires p <= |text|
  {
    p == 0 || (IsBreak(text[p - 1]) && !(text[p - 1] == '\r' && p < |text| && text[p] == '\n'))
  }

  function LineEnd(text: string, p: nat): (e: nat)
    requires p < |text|
    ensures p < e <= |text| && (e == |text| || IsLineStart(text, e))
    ensures forall q :: p < q < e ==> !IsLineStart(text, q)
    decreases |text| - p
  {
    if p + 1 == |text| || IsLineStart(text, p + 1) then p + 1 else LineEnd(text, p + 1)
  }

  function FirstSolid(text: string, p: nat): (s: nat)
    requires p <= |text|
    ensures p <= s <= |text| && Blank(text, p, s) && (s < |text| ==> !IsSpace(text[s]))
    decreases |text| - p
  {
    if p < |text| && IsSpace(text[p]) then FirstSolid(text, p + 1) else p
  }

  predicate HasLine(text: string, p: nat) {
    p < |text| && IsLineStart(text, p)
  }

  predicate IsHeading(text: string, p: nat)
    requires p < |text|
  {
    FirstSolid(text, p) < |text| && text[FirstSolid(text, p)] == '#'
  }

  /** A heading's first character other than white space is the number sign. */
  lemma HeadingMeans(text: string, p: nat)
    requires p < |text|
    ensures IsHeading(text, p) <==> exists q :: p <= q < |text| && text[q] == '#' && Blank(text, p, q)
  {
    if q :| p <= q < |text| && text[q] == '#' && Blank(text, p, q) {
      assert !IsSpace(text[q]);
      assert FirstSolid(text, p) == q;
    }
  }

  /** The line that ends at `p` is blank, or there is none. */
  ghost predicate AfterBlank(text: string, p: nat)
    requires p <= |text|
  {
    p == 0 || exists q: nat :: HasLine(text, q) && q < p && LineEnd(text, q) == p && Blank(text, q, p)
  }

  /** A line that opens a block: it is not blank, and it is a heading or follows a blank line. */
  ghost predicate Opens(text: string, p: nat) {
    HasLine(text, p) && FirstSolid(text, p) < LineEnd(text, p) && (IsHeading(text, p) || AfterBlank(text, p))
  }

  /** Where the text of a block begins. */
  ghost predicate StartsBlock(text: string, s: nat) {
    exists p: nat :: Opens(text, p) && s == FirstSolid(text, p)
  }

  // -- Spans -----------------------------------------------------------------------------------

  ghost predicate Covered(spans: seq<Span>, p: nat) {
    exists i :: 0 <= i < |spans| && spans[i].start <= p < spans[i].end
  }

  ghost predicate InBounds(spans: seq<Span>, hi: nat) {
    && (forall i :: 0 <= i < |spans| ==> spans[i].start < spans[i].end <= hi)
    && (forall i, j :: 0 <= i < j < |spans| ==> spans[i].end < spans[j].start)
  }

  // -- Structural spans ---------------------------------------------------------------------------

  ghost predicate Trimmed(text: string, span: Span) {
    span.start < span.end <= |text| && !IsSpace(text[span.start]) && !IsSpace(text[span.end - 1])
  }

  ghost predicate IsBlock(text: string, span: Span) {
    Trimmed(text, span) && StartsBlock(text, span.start) && span.tokens == Count(text, span.start, span.end)
  }

  /** Blocks found so far: each is trimmed, starts where a block starts, and together they
      cover everything below `hi` but white space. */
  ghost predicate Blocks(text: string, spans: seq<Span>, hi: nat)
    requires hi <= |text|
  {
    && InBounds(spans, hi)
    && (forall i :: 0 <= i < |spans| ==> IsBlock(text, spans[i]))
    && (forall p {:trigger Covered(spans, p)} :: 0 <= p < hi && !IsSpace(text[p]) ==> Covered(spans, p))
  }

  ghost predicate HasStart(spans: seq<Span>, s: nat) {
    exists i :: 0 <= i < |spans| && spans[i].start == s
  }

  /** Every block below `hi` has its span. */
  ghost predicate AllBlocks(text: string, spans: seq<Span>, hi: nat) {
    forall s :: 0 <= s < hi && StartsBlock(text, s) ==> HasStart(spans, s)
  }

  ghost predicate EndsBefore(spans: seq<Span>, hi: nat) {
    spans == [] || spans[|spans| - 1].end < hi
  }

  /** Between blocks, before offset `hi`. */
  ghost predicate BetweenBlocks(text: string, spans: seq<Span>, hi: nat) {
    hi <= |text| && Blocks(text, spans, hi) && AllBlocks(text, spans, hi) && EndsBefore(spans, hi)
  }

  /** A block opened at line `start` is still open before offset `hi`. */
  ghost predicate InBlock(text: string, spans: seq<Span>, start: nat, hi: nat) {
    && start < hi <= |text| && Opens(text, start) && LineEnd(text, start) <= hi
    && Blocks(text, spans, start) && EndsBefore(spans, start)
    && (forall s :: 0 <= s < hi && StartsBlock(text, s) ==> HasStart(spans, s) || s == FirstSolid(text, start))
    && (hi < |text| ==> IsLineStart(text, hi) && !AfterBlank(text, hi))
  }

  lemma LineStartsApart(text: string, p: nat, q: nat)
    requires HasLine(text, p) && HasLine(text, q)
    ensures p < q ==> LineEnd(text, p) <= q
    ensures q < p ==> LineEnd(text, q) <= p
  {
  }

  /** A block can start in a line only where the line's text starts. */
  lemma OneBlockPerLine(text: string, p: nat, s: nat)
    requires HasLine(text, p) && p <= s < LineEnd(text, p) && StartsBlock(text, s)
    ensures Opens(text, p) && s == FirstSolid(text, p)
  {
    var q: nat :| Opens(text, q) && s == FirstSolid(text, q);
    LineStartsApart(text, p, q);
  }

  lemma NotAfterBlank(text: string, p: nat)
    requires HasLine(text, p) && FirstSolid(text, p) < LineEnd(text, p)
    ensures !AfterBlank(text, LineEnd(text, p))
  {
    forall q: nat | HasLine(text, q) && LineEnd(text, q) == LineEnd(text, p) ensures q == p {
      LineStartsApart(text, p, q);
    }
  }

  lemma BlankLine(text: string, spans: seq<Span>, p: nat)
    requires HasLine(text, p) && FirstSolid(text, p) >= LineEnd(text, p)
    requires BetweenBlocks(text, spans, p) || (p == 0 && spans == [])
    ensures BetweenBlocks(text, spans, LineEnd(text, p)) && AfterBlank(text, LineEnd(text, p))
  {
    forall s | p <= s < LineEnd(text, p) && StartsBlock(text, s) ensures false { OneBlockPerLine(text, p, s); }
  }

  lemma OpenLine(text: string, spans: seq<Span>, p: nat)
    requires Opens(text, p) && BetweenBlocks(text, spans, p)
    ensures InBlock(text, spans, p, LineEnd(text, p))
  {
    NotAfterBlank(text, p);
    forall s | p <= s < LineEnd(text, p) && StartsBlock(text, s) ensures s == FirstSolid(text, p) {
      OneBlockPerLine(text, p, s);
    }
  }

  lemma ContinueLine(text: string, spans: seq<Span>, start: nat, p: nat)
    requires HasLine(text, p) && FirstSolid(text, p) < LineEnd(text, p) && !IsHeading(text, p)
    requires InBlock(text, spans, start, p)
    ensures InBlock(text, spans, start, LineEnd(text, p))
  {
    NotAfterBlank(text, p);
    forall s | p <= s < LineEnd(text, p) && StartsBlock(text, s) ensures false { OneBlockPerLine(text, p, s); }
  }

  method Trim(text: string, start: nat, end: nat) returns (s: nat, e: nat)
    requires start <= end <= |text|
    ensures start <= s <= e <= end && Blank(text, start, s) && Blank(text, e, end)
    ensures s < e ==> !IsSpace(text[s]) && !IsSpace(text[e - 1])
  {
    s, e := start, end;
    while s < e && IsSpace(text[s])
      invariant start <= s <= e && Blank(text, start, s)
    {
      s := s + 1;
    }
    while e > s && IsSpace(text[e - 1])
      invariant s <= e <= end && Blank(text, e, end)
    {
      e := e - 1;
    }
  }

  /** Closes the block that began at line `start`, at `end`. */
  method AppendSpan(text: string, spans: seq<Span>, start: nat, end: nat) returns (more: seq<Span>)
    requires start < end <= |text|
    requires Blocks(text, spans, start) && EndsBefore(spans, start)
    requires Opens(text, start) && FirstSolid(text, start) < end
    ensures Blocks(text, more, end) && |more| == |spans| + 1 && more[..|spans|] == spans
    ensures more[|spans|].start == FirstSolid(text, start)
  {
    var s, e := Trim(text, start, end);
    assert s < e && s == FirstSolid(text, start);
    more := spans;
    if s < e {
      more := more + [Span(s, e, Count(text, s, e))];
    }
    assert Trimmed(text, Span(s, e, Count(text, s, e)));
    BlockAdded(text, spans, start, end, Span(s, e, Count(text, s, e)));
  }

  lemma BlockAdded(text: string, spans: seq<Span>, start: nat, end: nat, span: Span)
    requires start <= span.start < span.end <= end <= |text|
    requires Blocks(text, spans, start) && EndsBefore(spans, start) && IsBlock(text, span)
    requires Blank(text, start, span.start) && Blank(text, span.end, end)
    ensures Blocks(text, spans + [span], end)
  {
    BoundsAdded(spans, start, span, end);
    forall p | 0 <= p < end && !IsSpace(text[p]) ensures Covered(spans + [span], p) {
      CoverAdded(spans, span, p);
    }
  }

  lemma BoundsAdded(spans: seq<Span>, start: nat, span: Span, end: nat)
    requires InBounds(spans, start) && EndsBefore(spans, start) && start <= span.start < span.end <= end
    ensures InBounds(spans + [span], end)
  {
    assert forall i :: 0 <= i < |spans| ==> spans[i].end < start;
  }

  lemma CoverAdded(spans: seq<Span>, span: Span, p: nat)
    ensures Covered(spans, p) || span.start <= p < span.end ==> Covered(spans + [span], p)
  {
    var more := spans + [span];
    if i :| 0 <= i < |spans| && spans[i].start <= p < spans[i].end { assert more[i] == spans[i]; }
    assert more[|spans|] == span;
  }

  lemma StartsAdded(spans: seq<Span>, more: seq<Span>, s: nat)
    requires |more| == |spans| + 1 && more[..|spans|] == spans
    ensures HasStart(spans, s) || s == more[|spans|].start ==> HasStart(more, s)
  {
    if i :| 0 <= i < |spans| && spans[i].start == s { assert more[i] == spans[i]; }
  }

  /** The blocks of a document: exactly one span per block, holding all its text. */
  method StructuralSpans(text: string) returns (spans: seq<Span>)
    ensures Blocks(text, spans, |text|) && AllBlocks(text, spans, |text|)
  {
    spans := [];
    var blockStart: Option<nat> := None;
    var blockEnd: nat := 0;
    var offset: nat := 0;
    while offset < |text|
      invariant offset <= |text|
      invariant offset < |text| ==> IsLineStart(text, offset)
      invariant blockStart.None? ==> BetweenBlocks(text, spans, offset) && AfterBlank(text, offset)
      invariant blockStart.Some? ==> InBlock(text, spans, blockStart.value, offset) && blockEnd == offset
      decreases |text| - offset
    {
      var lineStart, lineEnd := offset, LineEnd(text, offset);
      var solid := FirstSolid(text, lineStart);
      offset := lineEnd;
      if solid >= lineEnd {
        if blockStart.Some? {
          spans := CloseBlock(text, spans, blockStart.value, lineStart);
          blockStart := None;
        }
        BlankLine(text, spans, lineStart);
      } else {
        if text[solid] == '#' && blockStart.Some? {
          spans := CloseBlock(text, spans, blockStart.value, lineStart);
          blockStart := None;
        }
        if blockStart.None? {
          OpenLine(text, spans, lineStart);
          blockStart := Some(lineStart);
        } else {
          ContinueLine(text, spans, blockStart.value, lineStart);
        }
        blockEnd := lineEnd;
      }
    }
    if blockStart.Some? {
      spans := CloseBlock(text, spans, blockStart.value, blockEnd);
    }
  }

  method CloseBlock(text: string, spans: seq<Span>, start: nat, end: nat) returns (more: seq<Span>)
    requires InBlock(text, spans, start, end)
    ensures Blocks(text, more, end) && AllBlocks(text, more, end)
    ensures end < |text| ==> EndsBefore(more, end)
  {
    more := AppendSpan(text, spans, start, end);
    forall s | 0 <= s < end && StartsBlock(text, s) ensures HasStart(more, s) {
      StartsAdded(spans, more, s);
    }
    assert IsBlock(text, more[|more| - 1]);
    assert end < |text| ==> IsBreak(text[end - 1]) && IsSpace(text[end - 1]);
  }

  /** Being the blocks of a document says it all: no two lists of spans satisfy it. */
  lemma BlocksAreDetermined(text: string, a: seq<Span>, b: seq<Span>)
    requires Blocks(text, a, |text|) && AllBlocks(text, a, |text|)
    requires Blocks(text, b, |text|) && AllBlocks(text, b, |text|)
    ensures a == b
  {
    StartsAgree(text, a, b);
    SameStartsSameBlocks(text, a, b);
  }

  lemma StartsAgree(text: string, a: seq<Span>, b: seq<Span>)
    requires Blocks(text, a, |text|) && AllBlocks(text, a, |text|)
    requires Blocks(text, b, |text|) && AllBlocks(text, b, |text|)
    ensures Starts(a) == Starts(b)
  {
    SameStarts(text, a, b);
    SameMembersSameClimb(Starts(a), Starts(b));
  }

  lemma SameMembersSameClimb(x: seq<nat>, y: seq<nat>)
    requires Climbs(x) && Climbs(y) && SameMembers(x, y) && SameMembers(y, x)
    ensures x == y
  {
    SameClimb(x, y, |x|);
    SameClimb(y, x, |y|);
    assert x[..|x|] == x && y[..|y|] == y;
  }

  lemma SameStartsSameBlocks(text: string, a: seq<Span>, b: seq<Span>)
    requires Blocks(text, a, |text|) && Blocks(text, b, |text|) && Starts(a) == Starts(b)
    ensures a == b
  {
    assert forall i :: 0 <= i < |a| ==> a[i].start == Starts(a)[i] == Starts(b)[i] == b[i].start;
    forall i | 0 <= i < |a| ensures a[i] == b[i] {
      EndsNoLater(text, a, b, i);
      EndsNoLater(text, b, a, i);
      assert IsBlock(text, a[i]) && IsBlock(text, b[i]);
    }
  }

  function Starts(spans: seq<Span>): seq<nat> {
    seq(|spans|, i requires 0 <= i < |spans| => spans[i].start)
  }

  ghost predicate Climbs(s: seq<nat>) {
    forall i, j :: 0 <= i < j < |s| ==> s[i] < s[j]
  }

  lemma StartsAreBlocks(text: string, spans: seq<Span>)
    requires Blocks(text, spans, |text|) && AllBlocks(text, spans, |text|)
    ensures Climbs(Starts(spans))
    ensures forall s: nat :: s in Starts(spans) <==> s < |text| && StartsBlock(text, s)
  {
    forall s: nat ensures s in Starts(spans) <==> s < |text| && StartsBlock(text, s) {
      if s in Starts(spans) {
        var i :| 0 <= i < |spans| && Starts(spans)[i] == s;
        assert IsBlock(text, spans[i]);
      }
      if s < |text| && StartsBlock(text, s) {
        assert HasStart(spans, s);
        var i :| 0 <= i < |spans| && spans[i].start == s;
        assert Starts(spans)[i] == s;
      }
    }
  }

  ghost predicate SameMembers(x: seq<nat>, y: seq<nat>) {
    forall s: nat :: s in x <==> s in y
  }

  lemma SameStarts(text: string, a: seq<Span>, b: seq<Span>)
    requires Blocks(text, a, |text|) && AllBlocks(text, a, |text|)
    requires Blocks(text, b, |text|) && AllBlocks(text, b, |text|)
    ensures Climbs(Starts(a)) && Climbs(Starts(b))
    ensures SameMembers(Starts(a), Starts(b)) && SameMembers(Starts(b), Starts(a))
  {
    StartsAreBlocks(text, a);
    StartsAreBlocks(text, b);
  }

  lemma {:induction false} SameClimb(x: seq<nat>, y: seq<nat>, n: nat)
    requires Climbs(x) && Climbs(y) && n <= |x| && SameMembers(x, y)
    ensures n <= |y| && x[..n] == y[..n]
  {
    if n > 0 {
      SameClimb(x, y, n - 1);
      assert forall i :: 0 <= i < n - 1 ==> x[i] == x[..n - 1][i] == y[i];
      assert x[n - 1] in y;
      var j :| 0 <= j < |y| && y[j] == x[n - 1];
      assert j >= n - 1;
      assert y[n - 1] in x;
      var k :| 0 <= k < |x| && x[k] == y[n - 1];
      assert k >= n - 1;
      assert x[n - 1] == y[n - 1];
    }
  }

  lemma EndsNoLater(text: string, a: seq<Span>, b: seq<Span>, i: nat)
    requires Blocks(text, a, |text|) && Blocks(text, b, |text|) && |a| == |b| && i < |a|
    requires forall k :: 0 <= k < |a| ==> a[k].start == b[k].start
    ensures b[i].end <= a[i].end
  {
    var last := b[i].end - 1;
    assert IsBlock(text, b[i]);
    assert Covered(a, last);
    var j :| 0 <= j < |a| && a[j].start <= last < a[j].end;
    assert b[j].start <= last && j <= i;
  }
}
