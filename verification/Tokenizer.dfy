/** Alphanumeric tokens of a text, as the pattern [A-Za-z0-9]+ finds them in a range. */
module Tokenizer {
  import opened Common

  predicate IsAlnum(c: char) {
    'a' <= c <= 'z' || 'A' <= c <= 'Z' || '0' <= c <= '9'
  }

  /** Exactly the letters and digits of ASCII. */
  lemma AlnumCharacters(c: char)
    ensures IsAlnum(c) <==> c in "abcdefghijklmnopqrstuvwxyz" || c in "ABCDEFGHIJKLMNOPQRSTUVWXYZ" || c in "0123456789"
  {
    LowerCharacters(c);
    UpperCharacters(c);
    DigitCharacters(c);
  }

  lemma LowerCharacters(c: char)
    ensures 'a' <= c <= 'z' <==> c in "abcdefghijklmnopqrstuvwxyz"
  {
    var lower := "abcdefghijklmnopqrstuvwxyz";
    if 'a' <= c <= 'z' { assert lower[c as int - 'a' as int] == c; }
  }

  lemma UpperCharacters(c: char)
    ensures 'A' <= c <= 'Z' <==> c in "ABCDEFGHIJKLMNOPQRSTUVWXYZ"
  {
    var upper := "ABCDEFGHIJKLMNOPQRSTUVWXYZ";
    if 'A' <= c <= 'Z' { assert upper[c as int - 'A' as int] == c; }
  }

  lemma DigitCharacters(c: char)
    ensures '0' <= c <= '9' <==> c in "0123456789"
  {
    var digits := "0123456789";
    if '0' <= c <= '9' { assert digits[c as int - '0' as int] == c; }
  }

  datatype Token = Token(start: nat, end: nat)

  /** Where the run of alphanumeric characters that covers `lo` ends. */
  function RunEnd(text: string, lo: nat, hi: nat): (e: nat)
    requires lo <= hi <= |text|
    ensures lo <= e <= hi && (e < hi ==> !IsAlnum(text[e]))
    ensures forall p :: lo <= p < e ==> IsAlnum(text[p])
    decreases hi - lo
  {
    if lo < hi && IsAlnum(text[lo]) then RunEnd(text, lo + 1, hi) else lo
  }

  /** The matches in text[lo..hi], with their offsets in the whole text. */
  function Tokens(text: string, lo: nat, hi: nat): seq<Token>
    requires lo <= hi <= |text|
    decreases hi - lo
  {
    if lo == hi then []
    else if !IsAlnum(text[lo]) then Tokens(text, lo + 1, hi)
    else [Token(lo, RunEnd(text, lo, hi))] + Tokens(text, RunEnd(text, lo, hi), hi)
  }

  function Count(text: string, lo: nat, hi: nat): nat
    requires lo <= hi <= |text|
  {
    |Tokens(text, lo, hi)|
  }

  ghost predicate InOrder(tokens: seq<Token>, lo: nat, hi: nat) {
    && (forall i :: 0 <= i < |tokens| ==> lo <= tokens[i].start < tokens[i].end <= hi)
    && (forall i, j :: 0 <= i < j < |tokens| ==> tokens[i].end < tokens[j].start)
  }

  lemma {:induction false} TokensInOrder(text: string, lo: nat, hi: nat)
    requires lo <= hi <= |text|
    ensures InOrder(Tokens(text, lo, hi), lo, hi)
    ensures lo < hi && !IsAlnum(text[lo]) ==> InOrder(Tokens(text, lo, hi), lo + 1, hi)
    decreases hi - lo
  {
    if lo < hi {
      if !IsAlnum(text[lo]) {
        TokensInOrder(text, lo + 1, hi);
      } else {
        TokensInOrder(text, RunEnd(text, lo, hi), hi);
      }
    }
  }

  lemma {:induction false} NoTokens(text: string, lo: nat, hi: nat)
    requires lo <= hi <= |text| && forall p :: lo <= p < hi ==> !IsAlnum(text[p])
    ensures Tokens(text, lo, hi) == []
    decreases hi - lo
  {
    if lo < hi { NoTokens(text, lo + 1, hi); }
  }

  lemma {:induction false} RunStopsBefore(text: string, lo: nat, mid: nat, hi: nat)
    requires lo < mid <= hi <= |text| && (mid == hi || !IsAlnum(text[mid - 1]) || !IsAlnum(text[mid]))
    ensures RunEnd(text, lo, hi) == RunEnd(text, lo, mid)
    decreases mid - lo
  {
    if IsAlnum(text[lo]) && lo + 1 < mid { RunStopsBefore(text, lo + 1, mid, hi); }
  }

  lemma {:induction false} TokensSplit(text: string, lo: nat, mid: nat, hi: nat)
    requires lo <= mid <= hi <= |text|
    requires lo < mid < hi ==> !IsAlnum(text[mid - 1]) || !IsAlnum(text[mid])
    ensures Tokens(text, lo, hi) == Tokens(text, lo, mid) + Tokens(text, mid, hi)
    decreases mid - lo
  {
    if lo < mid {
      if !IsAlnum(text[lo]) {
        TokensSplit(text, lo + 1, mid, hi);
        assert Tokens(text, lo, mid) == Tokens(text, lo + 1, mid);
      } else {
        RunStopsBefore(text, lo, mid, hi);
        var e := RunEnd(text, lo, mid);
        TokensSplit(text, e, mid, hi);
        SeqAssociates([Token(lo, e)], Tokens(text, e, mid), Tokens(text, mid, hi));
        assert Tokens(text, lo, mid) == [Token(lo, e)] + Tokens(text, e, mid);
        assert Tokens(text, lo, hi) == [Token(lo, e)] + Tokens(text, e, hi);
      }
    }
  }

  /** Searching a slice and searching its range find the same tokens, shifted. */
  lemma {:induction false} SliceTokens(text: string, lo: nat, from: nat, hi: nat)
    requires lo <= from <= hi <= |text|
    ensures Count(text[lo..hi], from - lo, hi - lo) == Count(text, from, hi)
    decreases hi - from
  {
    if from < hi {
      SliceRunEnd(text, lo, from, hi);
      if !IsAlnum(text[from]) {
        SliceTokens(text, lo, from + 1, hi);
      } else {
        SliceTokens(text, lo, RunEnd(text, from, hi), hi);
      }
    }
  }

  lemma {:induction false} SliceRunEnd(text: string, lo: nat, from: nat, hi: nat)
    requires lo <= from <= hi <= |text|
    ensures RunEnd(text[lo..hi], from - lo, hi - lo) == RunEnd(text, from, hi) - lo
    decreases hi - from
  {
    if from < hi && IsAlnum(text[from]) { SliceRunEnd(text, lo, from + 1, hi); }
  }

  /** The tokens between the start of one token and the end of a later one are those between. */
  lemma {:induction false} TokensOfHull(text: string, lo: nat, hi: nat, i: nat, j: nat)
    requires lo <= hi <= |text| && i < j <= Count(text, lo, hi)
    ensures var m := Tokens(text, lo, hi);
      && lo <= m[i].start < m[j - 1].end <= hi
      && Tokens(text, m[i].start, m[j - 1].end) == m[i..j]
    decreases hi - lo
  {
    var m := Tokens(text, lo, hi);
    if !IsAlnum(text[lo]) {
      TokensOfHull(text, lo + 1, hi, i, j);
    } else if i > 0 {
      TokensOfHull(text, RunEnd(text, lo, hi), hi, i - 1, j - 1);
      assert m[i..j] == m[1..][i - 1..j - 1];
    } else if j == 1 {
      RunToItsEnd(text, lo, hi);
    } else {
      TokensOfHull(text, RunEnd(text, lo, hi), hi, 0, j - 1);
      HullFromRun(text, lo, hi, j);
    }
  }

  lemma HullFromRun(text: string, lo: nat, hi: nat, j: nat)
    requires lo < hi <= |text| && IsAlnum(text[lo]) && 1 < j <= Count(text, lo, hi)
    requires var rest := Tokens(text, RunEnd(text, lo, hi), hi);
      rest[0].start < rest[j - 2].end <= hi && Tokens(text, rest[0].start, rest[j - 2].end) == rest[0..j - 1]
    ensures var m := Tokens(text, lo, hi);
      lo == m[0].start < m[j - 1].end <= hi && Tokens(text, m[0].start, m[j - 1].end) == m[0..j]
  {
    var m, e := Tokens(text, lo, hi), RunEnd(text, lo, hi);
    var rest := Tokens(text, e, hi);
    assert m == [Token(lo, e)] + rest;
    var last := rest[j - 2].end;
    NoneBeforeFirst(text, e, hi);
    RunInside(text, lo, last, hi);
    PrependRun(text, lo, rest[0].start, last, rest[0..j - 1]);
    assert m[0..j] == [m[0]] + rest[0..j - 1];
  }

  lemma RunToItsEnd(text: string, lo: nat, hi: nat)
    requires lo < hi <= |text| && IsAlnum(text[lo])
    ensures Tokens(text, lo, RunEnd(text, lo, hi)) == [Token(lo, RunEnd(text, lo, hi))]
  {
    RunStopsBefore(text, lo, RunEnd(text, lo, hi), hi);
  }

  lemma {:induction false} RunInside(text: string, lo: nat, last: nat, hi: nat)
    requires lo <= last <= hi <= |text| && RunEnd(text, lo, hi) < last
    ensures RunEnd(text, lo, last) == RunEnd(text, lo, hi)
    decreases last - lo
  {
    if lo < last && IsAlnum(text[lo]) { RunInside(text, lo + 1, last, hi); }
  }

  lemma PrependRun(text: string, lo: nat, first: nat, last: nat, tail: seq<Token>)
    requires lo < last <= |text| && IsAlnum(text[lo]) && RunEnd(text, lo, last) <= first <= last
    requires forall p :: RunEnd(text, lo, last) <= p < first ==> !IsAlnum(text[p])
    requires Tokens(text, first, last) == tail
    ensures Tokens(text, lo, last) == [Token(lo, RunEnd(text, lo, last))] + tail
  {
    var e := RunEnd(text, lo, last);
    TokensSplit(text, e, first, last);
    NoTokens(text, e, first);
  }

  ghost predicate InToken(tokens: seq<Token>, p: nat) {
    exists i :: 0 <= i < |tokens| && tokens[i].start <= p < tokens[i].end
  }

  /** The tokens cover exactly the alphanumeric characters of the range. */
  lemma {:induction false} TokensCover(text: string, lo: nat, hi: nat, p: nat)
    requires lo <= p < hi <= |text|
    ensures InToken(Tokens(text, lo, hi), p) <==> IsAlnum(text[p])
    decreases hi - lo
  {
    TokensInOrder(text, lo, hi);
    var m := Tokens(text, lo, hi);
    if !IsAlnum(text[lo]) {
      if p > lo { TokensCover(text, lo + 1, hi, p); }
    } else {
      var e := RunEnd(text, lo, hi);
      assert m[0] == Token(lo, e) && m[1..] == Tokens(text, e, hi);
      TokensInOrder(text, e, hi);
      if p >= e {
        TokensCover(text, e, hi, p);
        if i :| 0 <= i < |m| && m[i].start <= p < m[i].end { assert m[1..][i - 1] == m[i]; }
        if i :| 0 <= i < |m[1..]| && m[1..][i].start <= p < m[1..][i].end { assert m[i + 1] == m[1..][i]; }
      }
    }
  }

  /** Nothing alphanumeric lies between two tokens, or after the last. */
  lemma TokenGap(text: string, lo: nat, hi: nat, k: nat)
    requires lo <= hi <= |text| && k < Count(text, lo, hi)
    ensures var m := Tokens(text, lo, hi);
      var next := if k + 1 < |m| then m[k + 1].start else hi;
      m[k].end <= next <= hi && forall p :: m[k].end <= p < next ==> !IsAlnum(text[p])
  {
    TokensInOrder(text, lo, hi);
    var m := Tokens(text, lo, hi);
    var next := if k + 1 < |m| then m[k + 1].start else hi;
    forall p | m[k].end <= p < next ensures !IsAlnum(text[p]) {
      TokensCover(text, lo, hi, p);
      if i :| 0 <= i < |m| && m[i].start <= p < m[i].end { assert i <= k || i >= k + 1; }
    }
  }

  lemma {:induction false} NoneBeforeFirst(text: string, lo: nat, hi: nat)
    requires lo <= hi <= |text| && Tokens(text, lo, hi) != []
    ensures lo <= Tokens(text, lo, hi)[0].start < hi
    ensures forall p :: lo <= p < Tokens(text, lo, hi)[0].start ==> !IsAlnum(text[p])
    decreases hi - lo
  {
    if lo < hi && !IsAlnum(text[lo]) { NoneBeforeFirst(text, lo + 1, hi); }
    TokensInOrder(text, lo, hi);
  }
}
