/** Files of one canonical JSON record per line, read back with the line rules of a byte string. */
module Jsonl {
  import opened Common

  newtype byte = i: int | 0 <= i < 256

  type Bytes = seq<byte>

  const LINE_FEED: byte := 10
  const CARRIAGE_RETURN: byte := 13

  predicate IsBreak(b: byte) {
    b == LINE_FEED || b == CARRIAGE_RETURN
  }

  predicate LineFree(line: Bytes) {
    forall i :: 0 <= i < |line| ==> !IsBreak(line[i])
  }

  /** A canonical encoding and its reader. JSON escapes control characters, so an
      encoded record is a non-empty run of bytes without line breaks. */
  datatype Codec<!T(!new)> = Codec(encode: T -> Bytes, decode: Bytes -> Option<T>) {
    ghost predicate Valid() {
      forall v :: decode(encode(v)) == Some(v) && encode(v) != [] && LineFree(encode(v))
    }
  }

  function Line<T(!new)>(codec: Codec<T>, v: T): Bytes {
    codec.encode(v) + [LINE_FEED]
  }

  function JoinLines<T(!new)>(codec: Codec<T>, vs: seq<T>): Bytes {
    if vs == [] then [] else JoinLines(codec, vs[..|vs| - 1]) + Line(codec, vs[|vs| - 1])
  }

  function FirstBreak(raw: Bytes): (n: nat)
    ensures n <= |raw| && forall i :: 0 <= i < n ==> !IsBreak(raw[i])
    ensures n < |raw| ==> IsBreak(raw[n])
    decreases |raw|
  {
    if raw == [] || IsBreak(raw[0]) then 0
    else FirstBreak(raw[1..]) + 1
  }

  /** Splits at LF, CR and CR LF; a final break opens no further line. */
  function SplitLines(raw: Bytes): seq<Bytes>
    decreases |raw|
  {
    if raw == [] then []
    else
      var n := FirstBreak(raw);
      [raw[..n]] + SplitLines(AfterBreak(raw, n))
  }

  function AfterBreak(raw: Bytes, n: nat): (rest: Bytes)
    requires n <= |raw| && raw != []
    ensures |rest| < |raw|
  {
    if n == |raw| then []
    else if raw[n] == CARRIAGE_RETURN && n + 1 < |raw| && raw[n + 1] == LINE_FEED then raw[n + 2..]
    else raw[n + 1..]
  }

  /** A line feed, a carriage return and the pair of both each end one line. */
  lemma OneBreakEach(line: Bytes, rest: Bytes)
    requires LineFree(line)
    ensures SplitLines(line + [LINE_FEED] + rest) == [line] + SplitLines(rest)
    ensures SplitLines(line + [CARRIAGE_RETURN, LINE_FEED] + rest) == [line] + SplitLines(rest)
    ensures (rest == [] || rest[0] != LINE_FEED) ==> SplitLines(line + [CARRIAGE_RETURN] + rest) == [line] + SplitLines(rest)
  {
    BrokenLine(line, [LINE_FEED], rest);
    BrokenLine(line, [CARRIAGE_RETURN, LINE_FEED], rest);
    if rest == [] || rest[0] != LINE_FEED { BrokenLine(line, [CARRIAGE_RETURN], rest); }
  }

  lemma BrokenLine(line: Bytes, end: Bytes, rest: Bytes)
    requires LineFree(line)
    requires || end == [LINE_FEED] || end == [CARRIAGE_RETURN, LINE_FEED]
             || (end == [CARRIAGE_RETURN] && (rest == [] || rest[0] != LINE_FEED))
    ensures SplitLines(line + end + rest) == [line] + SplitLines(rest)
  {
    var raw := line + end + rest;
    assert forall i :: 0 <= i < |line| ==> raw[i] == line[i];
    assert raw[|line|] == end[0];
    assert FirstBreak(raw) == |line| && raw[..|line|] == line;
    assert |end| == 2 ==> raw[|line| + 1] == LINE_FEED;
    assert AfterBreak(raw, |line|) == rest;
  }

  predicate WholeLines(raw: Bytes) {
    raw == [] || raw[|raw| - 1] == LINE_FEED
  }

  lemma FirstBreakIs(raw: Bytes, n: nat)
    requires n < |raw| && IsBreak(raw[n])
    requires forall i :: 0 <= i < n ==> !IsBreak(raw[i])
    ensures FirstBreak(raw) == n
  {
    assert FirstBreak(raw) <= n;
  }

  lemma BreakOfAppend(a: Bytes, b: Bytes)
    requires a != [] && WholeLines(a)
    ensures FirstBreak(a) < |a| && FirstBreak(a + b) == FirstBreak(a)
  {
    assert IsBreak(a[|a| - 1]);
    FirstBreakIs(a + b, FirstBreak(a));
  }

  lemma RestOfAppend(a: Bytes, b: Bytes, n: nat)
    requires n < |a| && WholeLines(a)
    ensures WholeLines(AfterBreak(a, n)) && AfterBreak(a + b, n) == AfterBreak(a, n) + b
  {
    assert (a + b)[n + 1..] == a[n + 1..] + b;
    if n + 1 < |a| { assert (a + b)[n + 2..] == a[n + 2..] + b; }
  }

  /** Splitting distributes over a cut at the end of a whole line. */
  lemma {:induction false} SplitAppend(a: Bytes, b: Bytes)
    requires WholeLines(a)
    ensures SplitLines(a + b) == SplitLines(a) + SplitLines(b)
    decreases |a|
  {
    if a == [] {
      assert a + b == b;
    } else {
      BreakOfAppend(a, b);
      var n := FirstBreak(a);
      var rest := AfterBreak(a, n);
      RestOfAppend(a, b, n);
      SplitAppend(rest, b);
      SplitFirst(a, n);
      SplitFirst(a + b, n);
      assert (a + b)[..n] == a[..n];
      SeqAssociates([a[..n]], SplitLines(rest), SplitLines(b));
    }
  }

  lemma SplitFirst(raw: Bytes, n: nat)
    requires raw != [] && n == FirstBreak(raw)
    ensures SplitLines(raw) == [raw[..n]] + SplitLines(AfterBreak(raw, n))
  {
  }

  lemma SplitOneLine(line: Bytes)
    requires LineFree(line)
    ensures SplitLines(line + [LINE_FEED]) == [line]
  {
    var raw := line + [LINE_FEED];
    assert raw[..|line|] == line;
    FirstBreakIs(raw, |line|);
    assert AfterBreak(raw, |line|) == [];
    assert SplitLines([]) == [];
  }

  // -- Reading -------------------------------------------------------------------

  /** A line is accepted only when it is the canonical encoding of what it decodes to. */
  function ParseLine<T(!new)>(codec: Codec<T>, line: Bytes): Option<T> {
    var v := codec.decode(line);
    if v.Some? && codec.encode(v.value) == line then v else None
  }

  function ParseLines<T(!new)>(codec: Codec<T>, lines: seq<Bytes>): Option<seq<T>> {
    if lines == [] then Some([])
    else
      var before, last := ParseLines(codec, lines[..|lines| - 1]), ParseLine(codec, lines[|lines| - 1]);
      if before.Some? && last.Some? then Some(before.value + [last.value]) else None
  }

  /** The records of a file, or None when it ends in a partial line or holds a malformed one. */
  function ReadRecords<T(!new)>(codec: Codec<T>, raw: Bytes): Option<seq<T>> {
    if WholeLines(raw) then ParseLines(codec, SplitLines(raw)) else None
  }

  /** The reader's loop: it stops at the first line that is empty or not canonical. */
  method ParseRecordLines<T(!new)>(codec: Codec<T>, raw: Bytes) returns (records: Option<seq<T>>)
    requires codec.Valid()
    ensures records == ParseLines(codec, SplitLines(raw))
  {
    var lines := SplitLines(raw);
    var parsed := [];
    for i := 0 to |lines|
      invariant ParseLines(codec, lines[..i]) == Some(parsed)
    {
      assert lines[..i + 1][..i] == lines[..i];
      var v := codec.decode(lines[i]);
      if lines[i] == [] || v.None? || codec.encode(v.value) != lines[i] {
        BadPrefixBadFile(codec, lines, i + 1);
        return None;
      }
      parsed := parsed + [v.value];
    }
    assert lines[..|lines|] == lines;
    return Some(parsed);
  }

  lemma {:induction false} BadPrefixBadFile<T(!new)>(codec: Codec<T>, lines: seq<Bytes>, n: nat)
    requires n <= |lines| && ParseLines(codec, lines[..n]).None?
    ensures ParseLines(codec, lines).None?
  {
    if n == |lines| {
      assert lines[..n] == lines;
    } else {
      assert lines[..|lines| - 1][..n] == lines[..n];
      BadPrefixBadFile(codec, lines[..|lines| - 1], n);
    }
  }

  function WithLast<T>(vs: Option<seq<T>>, v: T): Option<seq<T>> {
    if vs.None? then None else Some(vs.value + [v])
  }

  /** Appending one whole line appends exactly that record to what is read. */
  lemma ReadAppend<T(!new)>(codec: Codec<T>, raw: Bytes, v: T)
    requires codec.Valid() && WholeLines(raw)
    ensures WholeLines(raw + Line(codec, v))
    ensures ReadRecords(codec, raw + Line(codec, v)) == WithLast(ReadRecords(codec, raw), v)
  {
    SplitAppend(raw, Line(codec, v));
    SplitOneLine(codec.encode(v));
    ParseOneMore(codec, SplitLines(raw), v);
  }

  lemma ParseOneMore<T(!new)>(codec: Codec<T>, lines: seq<Bytes>, v: T)
    requires codec.Valid()
    ensures ParseLines(codec, lines + [codec.encode(v)]) == WithLast(ParseLines(codec, lines), v)
  {
    assert (lines + [codec.encode(v)])[..|lines|] == lines;
  }

  /** Records written one per line are read back exactly. */
  lemma {:induction false} ReadJoin<T(!new)>(codec: Codec<T>, vs: seq<T>)
    requires codec.Valid()
    ensures WholeLines(JoinLines(codec, vs))
    ensures ReadRecords(codec, JoinLines(codec, vs)) == Some(vs)
  {
    if vs == [] {
      assert SplitLines([]) == [];
    } else {
      var before, last := vs[..|vs| - 1], vs[|vs| - 1];
      ReadJoin(codec, before);
      ReadAppend(codec, JoinLines(codec, before), last);
      JoinLast(codec, vs);
      assert vs == before + [last];
    }
  }

  lemma JoinLast<T(!new)>(codec: Codec<T>, vs: seq<T>)
    requires vs != []
    ensures JoinLines(codec, vs) == JoinLines(codec, vs[..|vs| - 1]) + Line(codec, vs[|vs| - 1])
  {
  }

  /** Nothing but the canonical lines reads: a file that reads holds, line by line, exactly the
      encodings of its records. */
  lemma {:induction false} LinesAreCanonical<T(!new)>(codec: Codec<T>, lines: seq<Bytes>)
    ensures ParseLines(codec, lines).Some? ==>
      |ParseLines(codec, lines).value| == |lines|
      && forall i :: 0 <= i < |lines| ==> lines[i] == codec.encode(ParseLines(codec, lines).value[i])
  {
    if lines != [] { LinesAreCanonical(codec, lines[..|lines| - 1]); }
  }

  /** Without carriage returns the bytes themselves are determined: the file is its records, one
      canonical encoding per line. */
  lemma ReadDeterminesFile<T(!new)>(codec: Codec<T>, raw: Bytes)
    requires CARRIAGE_RETURN !in raw && ReadRecords(codec, raw).Some?
    ensures raw == JoinLines(codec, ReadRecords(codec, raw).value)
  {
    LinesAreCanonical(codec, SplitLines(raw));
    LinesRebuild(codec, raw, ReadRecords(codec, raw).value);
  }

  lemma FirstLine(raw: Bytes)
    requires CARRIAGE_RETURN !in raw && WholeLines(raw) && raw != []
    ensures var n, rest := FirstBreak(raw), AfterBreak(raw, FirstBreak(raw));
      raw == raw[..n] + [LINE_FEED] + rest && WholeLines(rest) && CARRIAGE_RETURN !in rest
  {
    var n := FirstBreak(raw);
    assert raw[|raw| - 1] == LINE_FEED;
    assert n < |raw| && raw[n] in raw;
    var rest := AfterBreak(raw, n);
    assert raw == raw[..n] + [LINE_FEED] + rest;
    assert rest != [] ==> rest[|rest| - 1] == raw[|raw| - 1];
  }

  lemma {:induction false} LinesRebuild<T(!new)>(codec: Codec<T>, raw: Bytes, vs: seq<T>)
    requires CARRIAGE_RETURN !in raw && WholeLines(raw) && |vs| == |SplitLines(raw)|
    requires forall i :: 0 <= i < |vs| ==> SplitLines(raw)[i] == codec.encode(vs[i])
    ensures raw == JoinLines(codec, vs)
    decreases |raw|
  {
    if raw != [] {
      FirstLine(raw);
      LinesRebuild(codec, AfterBreak(raw, FirstBreak(raw)), vs[1..]);
      JoinCons(codec, vs);
      assert raw[..FirstBreak(raw)] == codec.encode(vs[0]);
    }
  }

  lemma {:induction false} JoinCons<T(!new)>(codec: Codec<T>, vs: seq<T>)
    requires vs != []
    ensures JoinLines(codec, vs) == Line(codec, vs[0]) + JoinLines(codec, vs[1..])
  {
    if |vs| > 1 {
      var init := vs[..|vs| - 1];
      JoinCons(codec, init);
      assert vs[1..][..|vs| - 2] == init[1..];
      SeqAssociates(Line(codec, vs[0]), JoinLines(codec, init[1..]), Line(codec, vs[|vs| - 1]));
    } else {
      assert vs[..0] == [] && vs[1..] == [];
    }
  }

  /** Some prefix of the records takes exactly `cut` bytes. */
  ghost predicate AtLineEnd<T(!new)>(codec: Codec<T>, vs: seq<T>, cut: nat) {
    exists k :: 0 <= k <= |vs| && |JoinLines(codec, vs[..k])| == cut
  }

  /** Cutting a file at any byte leaves either an unreadable file or an exact prefix of its records. */
  lemma {:induction false} CutReadsPrefix<T(!new)>(codec: Codec<T>, vs: seq<T>, cut: nat)
    requires codec.Valid() && cut <= |JoinLines(codec, vs)|
    ensures var read := ReadRecords(codec, JoinLines(codec, vs)[..cut]);
      && (read.Some? <==> AtLineEnd(codec, vs, cut))
      && (read.Some? ==> read.value <= vs && |JoinLines(codec, read.value)| == cut)
    decreases |vs|
  {
    var all := JoinLines(codec, vs);
    if cut == |all| {
      ReadJoin(codec, vs);
      assert all[..cut] == all && vs[..|vs|] == vs;
    } else {
      var last, before := vs[|vs| - 1], vs[..|vs| - 1];
      var start := JoinLines(codec, before);
      LineEndsBefore(codec, vs, cut);
      if cut <= |start| {
        assert all[..cut] == start[..cut];
        CutReadsPrefix(codec, before, cut);
      } else {
        assert all[..cut][cut - 1] == codec.encode(last)[cut - 1 - |start|];
        assert !WholeLines(all[..cut]);
      }
    }
  }

  /** A cut before the end is at a line end exactly when it is one of the file without its last
      line, so never inside the last line. */
  lemma LineEndsBefore<T(!new)>(codec: Codec<T>, vs: seq<T>, cut: nat)
    requires vs != [] && cut < |JoinLines(codec, vs)|
    ensures AtLineEnd(codec, vs, cut) <==> AtLineEnd(codec, vs[..|vs| - 1], cut)
    ensures AtLineEnd(codec, vs, cut) ==> cut <= |JoinLines(codec, vs[..|vs| - 1])|
  {
    var before := vs[..|vs| - 1];
    if AtLineEnd(codec, vs, cut) {
      var k :| 0 <= k <= |vs| && |JoinLines(codec, vs[..k])| == cut;
      assert vs[..|vs|] == vs;
      assert k < |vs| && before[..k] == vs[..k];
      ShorterJoin(codec, before, k);
    }
    if AtLineEnd(codec, before, cut) {
      var k :| 0 <= k <= |before| && |JoinLines(codec, before[..k])| == cut;
      assert before[..k] == vs[..k];
    }
  }

  lemma {:induction false} ShorterJoin<T(!new)>(codec: Codec<T>, vs: seq<T>, k: nat)
    requires k <= |vs|
    ensures |JoinLines(codec, vs[..k])| <= |JoinLines(codec, vs)|
  {
    if k < |vs| {
      ShorterJoin(codec, vs[..|vs| - 1], k);
      assert vs[..|vs| - 1][..k] == vs[..k];
    } else {
      assert vs[..k] == vs;
    }
  }
}
