/** The hash-chained audit log: what one head commits to, and what it does not.

    A row hash is taken over the undelimited text `prev + body + repr(ts)`. The
    hash itself is a parameter: nothing is assumed of it but the shape of its
    output, so every theorem ends either in equality or in two different texts
    with the same hash. */
module HashChain {
  import opened Common

  const GENESIS := "genesis"
  const DIGEST_LENGTH := 64

  /** A stored timestamp: the number of the double it is. Every timestamp a row can hold has
      one, and its printed form names it. */
  type Instant = int

  /** The four columns shown beside a row; the body repeats them. */
  datatype Display = Display(tenant: string, principal: string, action: string, target: string)

  /** A parsed body: the display fields (None when one of them is missing) and the canonical detail. */
  datatype Payload = Payload(display: Option<Display>, detail: string)

  datatype AuditRow = AuditRow(
    seqNo: int, ts: Instant, display: Display, body: string, prevHash: string, rowHash: string)

  /** The foreign functions of the log: the hash's hex digest, `repr` of a timestamp
      and its reader, the JSON reader of a body (None when the text is not a JSON object), and the
      canonical writer the log uses for its own bodies. */
  datatype Env = Env(
    hash: string -> string,
    repr: Instant -> string,
    readTs: string -> Instant,
    parse: string -> Option<Payload>,
    write: (Display, string) -> string)
  {
    ghost predicate Valid() {
      && (forall text :: IsDigest(hash(text)))
      && (forall t :: repr(t) != "" && !IsJsonSpace(repr(t)[0]))
      && (forall t :: readTs(repr(t)) == t)
      && (forall text :: parse(text).Some? ==> IsObjectText(text))
      && (forall d, detail :: parse(write(d, detail)) == Some(Payload(Some(d), detail)))
    }
  }

  predicate IsHexDigit(c: char) {
    '0' <= c <= '9' || 'a' <= c <= 'f'
  }

  predicate IsDigest(s: string) {
    |s| == DIGEST_LENGTH && forall i :: 0 <= i < |s| ==> IsHexDigit(s[i])
  }

  // -- The outline of a JSON object text ------------------------------------

  predicate IsJsonSpace(c: char) {
    c == ' ' || c == '\t' || c == '\n' || c == '\r'
  }

  /** Where a reader stands in an object text: before it, inside it at some bracket
      depth (and possibly inside a string), after its closing bracket, or lost. */
  datatype Scan = AtStart | Inside(depth: nat, quoted: bool, escaped: bool) | AtEnd | Lost

  function ScanChar(st: Scan, c: char): Scan {
    match st
    case AtStart => if IsJsonSpace(c) then AtStart else if c == '{' then Inside(1, false, false) else Lost
    case Inside(d, true, true) => Inside(d, true, false)
    case Inside(d, true, false) =>
      if c == '\\' then Inside(d, true, true) else Inside(d, c != '"', false)
    case Inside(d, false, _) =>
      if c == '"' then Inside(d, true, false)
      else if c == '{' || c == '[' then Inside(d + 1, false, false)
      else if c == '}' || c == ']' then (if d <= 1 then AtEnd else Inside(d - 1, false, false))
      else st
    case AtEnd => if IsJsonSpace(c) then AtEnd else Lost
    case Lost => Lost
  }

  function ScanText(st: Scan, text: string): Scan
    decreases |text|
  {
    if text == "" then st else ScanText(ScanChar(st, text[0]), text[1..])
  }

  /** A necessary condition for a text to be one JSON object: its outer braces match
      and nothing but white space surrounds them. */
  predicate IsObjectText(text: string) {
    ScanText(AtStart, text) == AtEnd
  }

  lemma {:induction false} ScanAppend(st: Scan, a: string, b: string)
    ensures ScanText(st, a + b) == ScanText(ScanText(st, a), b)
    decreases |a|
  {
    if a == "" {
      assert a + b == b;
    } else {
      assert (a + b)[1..] == a[1..] + b;
      ScanAppend(ScanChar(st, a[0]), a[1..], b);
    }
  }

  lemma {:induction false} LostStaysLost(text: string)
    ensures ScanText(Lost, text) == Lost
  {
    if text != "" { LostStaysLost(text[1..]); }
  }

  /** Nothing but white space may follow a complete object. */
  lemma TailIsSpace(text: string)
    requires text != "" && ScanText(AtEnd, text) == AtEnd
    ensures IsJsonSpace(text[0])
  {
    if !IsJsonSpace(text[0]) { LostStaysLost(text[1..]); }
  }

  /** A body and the timestamp text after it can be told apart without a delimiter. */
  lemma BodySplitsUniquely(a: string, x: string, b: string, y: string)
    requires IsObjectText(a) && IsObjectText(b)
    requires x != "" && !IsJsonSpace(x[0]) && y != "" && !IsJsonSpace(y[0])
    requires a + x == b + y
    ensures a == b && x == y
  {
    if |a| <= |b| {
      SplitPointsAgree(a, x, b, y);
    } else {
      SplitPointsAgree(b, y, a, x);
    }
    assert a == (a + x)[..|a|] == b;
    assert x == (a + x)[|a|..] == y;
  }

  lemma SplitPointsAgree(a: string, x: string, b: string, y: string)
    requires IsObjectText(a) && IsObjectText(b) && |a| <= |b|
    requires x != "" && !IsJsonSpace(x[0])
    requires a + x == b + y
    ensures |a| == |b|
  {
    var rest := b[|a|..];
    assert b == a + rest by {
      assert b[..|a|] == (a + x)[..|a|] == a;
    }
    ScanAppend(AtStart, a, rest);
    if rest != "" {
      assert rest[0] == (b + y)[|a|] == x[0];
      TailIsSpace(rest);
    }
  }

  // -- Chain links ------------------------------------------------------------

  function Preimage(env: Env, prev: string, body: string, ts: Instant): string {
    prev + body + env.repr(ts)
  }

  /** The previous-hash field of any link: the genesis word or a digest. */
  predicate IsLink(prev: string) {
    prev == GENESIS || IsDigest(prev)
  }

  /** The concatenation a row hash is taken over decodes in one way only. */
  lemma PreimageDecodes(env: Env, p: string, a: string, t: Instant, q: string, b: string, u: Instant)
    requires env.Valid() && IsLink(p) && IsLink(q)
    requires env.parse(a).Some? && env.parse(b).Some?
    requires Preimage(env, p, a, t) == Preimage(env, q, b, u)
    ensures p == q && a == b && t == u
  {
    var left, right := Preimage(env, p, a, t), Preimage(env, q, b, u);
    assert p[0] == left[0] == right[0] == q[0];
    assert !IsHexDigit(GENESIS[0]);
    assert |p| == |q|;
    assert p == left[..|p|] == right[..|q|] == q;
    assert a + env.repr(t) == left[|p|..];
    assert b + env.repr(u) == right[|q|..];
    BodySplitsUniquely(a, env.repr(t), b, env.repr(u));
  }

  function Head(rows: seq<AuditRow>): string {
    if rows == [] then GENESIS else rows[|rows| - 1].rowHash
  }

  function DisplayMatchesBody(env: Env, row: AuditRow): bool {
    var payload := env.parse(row.body);
    payload.Some? && payload.value.display == Some(row.display)
  }

  predicate LinkOk(env: Env, prev: string, row: AuditRow) {
    && row.prevHash == prev
    && DisplayMatchesBody(env, row)
    && row.rowHash == env.hash(Preimage(env, prev, row.body, row.ts))
  }

  /** Every row extends the hash of the row before it, starting at genesis. */
  predicate ChainOk(env: Env, rows: seq<AuditRow>) {
    rows == [] ||
    var before := rows[..|rows| - 1];
    ChainOk(env, before) && LinkOk(env, Head(before), rows[|rows| - 1])
  }

  lemma {:induction false} PrefixChainOk(env: Env, rows: seq<AuditRow>, n: nat)
    requires ChainOk(env, rows) && n <= |rows|
    ensures ChainOk(env, rows[..n])
  {
    if n == |rows| {
      assert rows[..n] == rows;
    } else {
      PrefixChainOk(env, rows[..|rows| - 1], n);
      assert rows[..|rows| - 1][..n] == rows[..n];
    }
  }

  lemma HeadIsLink(env: Env, rows: seq<AuditRow>)
    requires env.Valid() && ChainOk(env, rows)
    ensures IsLink(Head(rows))
    ensures rows != [] <==> IsDigest(Head(rows))
  {
  }

  /** What a verifying log says of its last row. */
  lemma LastLink(env: Env, rows: seq<AuditRow>)
    requires env.Valid() && ChainOk(env, rows) && rows != []
    ensures var before, row := rows[..|rows| - 1], rows[|rows| - 1];
      && ChainOk(env, before) && LinkOk(env, Head(before), row)
      && IsLink(row.prevHash) && env.parse(row.body).Some?
  {
    HeadIsLink(env, rows[..|rows| - 1]);
  }

  /** The chain check, row by row, as the log runs it. */
  method VerifyChain(env: Env, rows: seq<AuditRow>) returns (ok: bool)
    ensures ok <==> ChainOk(env, rows)
  {
    var prev := GENESIS;
    for i := 0 to |rows|
      invariant prev == Head(rows[..i]) && ChainOk(env, rows[..i])
    {
      var row := rows[i];
      assert rows[..i + 1][..i] == rows[..i];
      if row.prevHash != prev
        || !DisplayMatchesBody(env, row)
        || env.hash(Preimage(env, prev, row.body, row.ts)) != row.rowHash
      {
        assert !ChainOk(env, rows) by {
          if ChainOk(env, rows) { PrefixChainOk(env, rows, i + 1); }
        }
        return false;
      }
      prev := row.rowHash;
    }
    assert rows[..|rows|] == rows;
    return true;
  }

  // -- One head, one history ---------------------------------------------------

  ghost predicate Collides(env: Env, pair: (string, string)) {
    pair.0 != pair.1 && env.hash(pair.0) == env.hash(pair.1)
  }

  /** Equal in every hash-bound field; the sequence number is not one of them. */
  predicate SameEntry(a: AuditRow, b: AuditRow) {
    a.(seqNo := 0) == b.(seqNo := 0)
  }

  ghost predicate SameEntries(a: seq<AuditRow>, b: seq<AuditRow>) {
    |a| == |b| && forall i :: 0 <= i < |a| ==> SameEntry(a[i], b[i])
  }

  /** Walks two logs back from their last rows and returns the first pair of row texts that differ. */
  function FirstDifference(env: Env, a: seq<AuditRow>, b: seq<AuditRow>): Option<(string, string)> {
    if a == [] || b == [] then None
    else
      var r, s := a[|a| - 1], b[|b| - 1];
      var x, y := Preimage(env, r.prevHash, r.body, r.ts), Preimage(env, s.prevHash, s.body, s.ts);
      if x != y then Some((x, y)) else FirstDifference(env, a[..|a| - 1], b[..|b| - 1])
  }

  /** The walk back over two logs finds them equal row by row, or exhibits a hash collision. */
  ghost predicate SameOrCollision(env: Env, a: seq<AuditRow>, b: seq<AuditRow>) {
    match FirstDifference(env, a, b)
    case Some(pair) => Collides(env, pair)
    case None => SameEntries(a, b)
  }

  /** Two verifying logs with the same head are the same history, or the walk
      back from that head exhibits a hash collision. */
  lemma {:induction false} SameHeadSameHistory(env: Env, a: seq<AuditRow>, b: seq<AuditRow>)
    requires env.Valid() && ChainOk(env, a) && ChainOk(env, b) && Head(a) == Head(b)
    ensures SameOrCollision(env, a, b)
    decreases |a|
  {
    HeadIsLink(env, a);
    HeadIsLink(env, b);
    if a != [] && b != [] {
      SameHeadStep(env, a, b);
      var r, s := a[|a| - 1], b[|b| - 1];
      if Preimage(env, r.prevHash, r.body, r.ts) == Preimage(env, s.prevHash, s.body, s.ts) {
        SameHeadSameHistory(env, a[..|a| - 1], b[..|b| - 1]);
        SameEntriesGrow(a, b);
      }
    }
  }

  lemma SameEntriesGrow(a: seq<AuditRow>, b: seq<AuditRow>)
    requires a != [] && b != [] && SameEntry(a[|a| - 1], b[|b| - 1])
    ensures SameEntries(a[..|a| - 1], b[..|b| - 1]) ==> SameEntries(a, b)
  {
    if SameEntries(a[..|a| - 1], b[..|b| - 1]) {
      forall i | 0 <= i < |a| ensures SameEntry(a[i], b[i]) {
        assert i < |a| - 1 ==> SameEntry(a[..|a| - 1][i], b[..|b| - 1][i]);
      }
    }
  }

  lemma SameHeadStep(env: Env, a: seq<AuditRow>, b: seq<AuditRow>)
    requires env.Valid() && ChainOk(env, a) && ChainOk(env, b) && Head(a) == Head(b)
    requires a != [] && b != []
    ensures ChainOk(env, a[..|a| - 1]) && ChainOk(env, b[..|b| - 1])
    ensures var r, s := a[|a| - 1], b[|b| - 1];
      var x, y := Preimage(env, r.prevHash, r.body, r.ts), Preimage(env, s.prevHash, s.body, s.ts);
      && env.hash(x) == env.hash(y)
      && (x == y ==> SameEntry(r, s) && Head(a[..|a| - 1]) == Head(b[..|b| - 1]))
  {
    LastLink(env, a);
    LastLink(env, b);
    var r, s := a[|a| - 1], b[|b| - 1];
    if Preimage(env, r.prevHash, r.body, r.ts) == Preimage(env, s.prevHash, s.body, s.ts) {
      PreimageDecodes(env, r.prevHash, r.body, r.ts, s.prevHash, s.body, s.ts);
    }
  }

  /** The chain does not bind sequence numbers: renumbering rows keeps it valid. */
  lemma {:induction false} RenumberingKeepsChain(env: Env, rows: seq<AuditRow>, renumbered: seq<AuditRow>)
    requires ChainOk(env, rows) && SameEntries(rows, renumbered)
    ensures ChainOk(env, renumbered) && Head(renumbered) == Head(rows)
  {
    if rows != [] {
      assert SameEntry(rows[|rows| - 1], renumbered[|rows| - 1]);
      RenumberingKeepsChain(env, rows[..|rows| - 1], renumbered[..|rows| - 1]);
    }
  }

  // -- The append paths ----------------------------------------------------------

  /** Rows are read in sequence order and the database numbers them from one without gaps. */
  ghost predicate Numbered(rows: seq<AuditRow>) {
    forall i :: 0 <= i < |rows| ==> rows[i].seqNo == i + 1
  }

  ghost predicate LogOk(env: Env, rows: seq<AuditRow>) {
    ChainOk(env, rows) && Numbered(rows)
  }

  function NextRow(env: Env, rows: seq<AuditRow>, ts: Instant, d: Display, body: string): AuditRow {
    AuditRow(|rows| + 1, ts, d, body, Head(rows), env.hash(Preimage(env, Head(rows), body, ts)))
  }

  lemma AppendKeepsLog(env: Env, rows: seq<AuditRow>, ts: Instant, d: Display, body: string)
    requires LogOk(env, rows)
    ensures LogOk(env, rows + [NextRow(env, rows, ts, d, body)])
      <==> env.parse(body).Some? && env.parse(body).value.display == Some(d)
  {
    var row := NextRow(env, rows, ts, d, body);
    assert (rows + [row])[..|rows|] == rows;
  }

  /** The audit table inside one write transaction. */
  class AuditTable {
    const env: Env
    var rows: seq<AuditRow>

    constructor (env: Env)
      ensures this.env == env && rows == []
    {
      this.env := env;
      rows := [];
    }

    /** Append while the caller holds the write lock. */
    method AppendInTransaction(ts: Instant, d: Display, body: string) returns (row: AuditRow)
      modifies this
      ensures row == NextRow(env, old(rows), ts, d, body)
      ensures rows == old(rows) + [row]
    {
      var prev := Head(rows);
      var rowHash := env.hash(Preimage(env, prev, body, ts));
      row := AuditRow(|rows| + 1, ts, d, body, prev, rowHash);
      rows := rows + [row];
    }

    /** An ordinary append: the body is written from the display columns, so the log stays valid. */
    method Append(ts: Instant, d: Display, detail: string) returns (row: AuditRow)
      requires env.Valid() && LogOk(env, rows)
      modifies this
      ensures rows == old(rows) + [row] && row == NextRow(env, old(rows), ts, d, env.write(d, detail))
      ensures LogOk(env, rows)
    {
      AppendKeepsLog(env, rows, ts, d, env.write(d, detail));
      row := AppendInTransaction(ts, d, env.write(d, detail));
    }

    /** Append a row whose detail is built from the number the row receives: a
        placeholder row is inserted first, then completed. The result is the row an
        ordinary append of that detail would have written. */
    method AppendBound(ts: Instant, d: Display, detailFor: int -> string) returns (row: AuditRow)
      requires env.Valid() && LogOk(env, rows)
      modifies this
      ensures row == NextRow(env, old(rows), ts, d, env.write(d, detailFor(|old(rows)| + 1)))
      ensures rows == old(rows) + [row]
      ensures LogOk(env, rows)
    {
      var head := Head(rows);
      var number := |rows| + 1;
      rows := rows + [AuditRow(number, ts, d, "", head, "")];
      var body := env.write(d, detailFor(number));
      AppendKeepsLog(env, old(rows), ts, d, body);
      var rowHash := env.hash(Preimage(env, head, body, ts));
      row := rows[number - 1].(body := body, rowHash := rowHash);
      rows := rows[number - 1 := row];
    }
  }
}
