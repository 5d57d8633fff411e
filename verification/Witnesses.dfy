/** The laws assumed of the foreign functions can be met: environments that satisfy them,
    built from one prefix-free code. */
module Witnesses {
  import opened Common
  import opened Jsonl
  import opened HashChain
  import opened AnchorSink
  import opened AnchorVerify
  import AuditBundle
  import StrictCutover
  import KeyLife
  import SourceSpans

  // -- A prefix-free code ------------------------------------------------------------------------

  /** A code word: only its two letters matter, not how they are written. */
  type Code = seq<bool>

  function NatCode(n: nat): Code {
    if n == 0 then [false] else [true] + NatCode(n - 1)
  }

  function IntCode(i: int): Code {
    NatCode(if i >= 0 then 2 * i else -2 * i - 1)
  }

  function TextCode(s: string): Code {
    if s == "" then [false] else [true] + NatCode(s[0] as nat) + TextCode(s[1..])
  }

  lemma {:induction false} NatDecodes(m: nat, n: nat, x: Code, y: Code)
    requires NatCode(m) + x == NatCode(n) + y
    ensures m == n && x == y
  {
    var a, b := NatCode(m) + x, NatCode(n) + y;
    assert a[0] == (m > 0) && b[0] == (n > 0);
    if m > 0 {
      assert a[1..] == NatCode(m - 1) + x && b[1..] == NatCode(n - 1) + y;
      NatDecodes(m - 1, n - 1, x, y);
    } else {
      assert a[1..] == x && b[1..] == y;
    }
  }

  lemma IntDecodes(i: int, j: int, x: Code, y: Code)
    requires IntCode(i) + x == IntCode(j) + y
    ensures i == j && x == y
  {
    NatDecodes(if i >= 0 then 2 * i else -2 * i - 1, if j >= 0 then 2 * j else -2 * j - 1, x, y);
  }

  lemma {:induction false} TextDecodes(s: string, t: string, x: Code, y: Code)
    requires TextCode(s) + x == TextCode(t) + y
    ensures s == t && x == y
    decreases |s|
  {
    var a, b := TextCode(s) + x, TextCode(t) + y;
    assert a[0] == (s != "") && b[0] == (t != "");
    if s != "" {
      assert a[1..] == NatCode(s[0] as nat) + (TextCode(s[1..]) + x);
      assert b[1..] == NatCode(t[0] as nat) + (TextCode(t[1..]) + y);
      NatDecodes(s[0] as nat, t[0] as nat, TextCode(s[1..]) + x, TextCode(t[1..]) + y);
      TextDecodes(s[1..], t[1..], x, y);
      assert s == [s[0]] + s[1..] && t == [t[0]] + t[1..];
    } else {
      assert a[1..] == x && b[1..] == y;
    }
  }

  /** Several texts, one after the other. */
  function TextsCode(texts: seq<string>): Code {
    if texts == [] then [] else TextCode(texts[0]) + TextsCode(texts[1..])
  }

  lemma {:induction false} TextsDecode(s: seq<string>, t: seq<string>, x: Code, y: Code)
    requires |s| == |t| && TextsCode(s) + x == TextsCode(t) + y
    ensures s == t && x == y
    decreases |s|
  {
    if s == [] {
      assert [] + x == x && [] + y == y;
    } else {
      assert TextsCode(s) + x == TextCode(s[0]) + (TextsCode(s[1..]) + x);
      assert TextsCode(t) + y == TextCode(t[0]) + (TextsCode(t[1..]) + y);
      TextDecodes(s[0], t[0], TextsCode(s[1..]) + x, TextsCode(t[1..]) + y);
      TextsDecode(s[1..], t[1..], x, y);
    }
  }

  // -- The coded values -----------------------------------------------------------------------------

  function DisplayTexts(d: Display): seq<string> {
    [d.tenant, d.principal, d.action, d.target]
  }

  function RowCode(r: AuditRow): Code {
    IntCode(r.seqNo) + (IntCode(r.ts) + TextsCode(DisplayTexts(r.display) + [r.body, r.prevHash, r.rowHash]))
  }

  lemma RowDecodes(r: AuditRow, q: AuditRow)
    requires RowCode(r) == RowCode(q)
    ensures r == q
  {
    var s, t := DisplayTexts(r.display) + [r.body, r.prevHash, r.rowHash], DisplayTexts(q.display) + [q.body, q.prevHash, q.rowHash];
    IntDecodes(r.seqNo, q.seqNo, IntCode(r.ts) + TextsCode(s), IntCode(q.ts) + TextsCode(t));
    IntDecodes(r.ts, q.ts, TextsCode(s), TextsCode(t));
    TextsDecode(s, t, [], []);
    assert s[0] == t[0] && s[1] == t[1] && s[2] == t[2] && s[3] == t[3] && s[4] == t[4] && s[5] == t[5] && s[6] == t[6];
  }

  /** Presence and value of a parsed instant. */
  function InstantCode(i: Option<int>, rest: Code): Code {
    NatCode(if i.Some? then 1 else 0) + (IntCode(if i.Some? then i.value else 0) + rest)
  }

  lemma InstantDecodes(i: Option<int>, j: Option<int>, x: Code, y: Code)
    requires InstantCode(i, x) == InstantCode(j, y)
    ensures i == j && x == y
  {
    var v, w := if i.Some? then i.value else 0, if j.Some? then j.value else 0;
    NatDecodes(if i.Some? then 1 else 0, if j.Some? then 1 else 0, IntCode(v) + x, IntCode(w) + y);
    IntDecodes(v, w, x, y);
  }

  function SignedTexts(s: Signed): seq<string> {
    [s.sinkId, s.keyId, s.root, s.signature]
  }

  function Kind(r: Record): nat {
    match r case Anchor(_, _, _, _, _) => 0 case Pin(_, _, _, _, _) => 1 case Unknown(_) => 2
  }

  function NumberOf(r: Record): int {
    if r.Anchor? then r.seqNo else 0
  }

  function InstantOf(r: Record): Option<int> {
    if r.Unknown? then None else r.signed.createdAt
  }

  function RecordTexts(r: Record): seq<string> {
    match r
    case Anchor(chain, id, _, hash, signed) => [chain, id, hash, ""] + SignedTexts(signed)
    case Pin(chain, id, manifest, digest, signed) => [chain, id, manifest, digest] + SignedTexts(signed)
    case Unknown(text) => [text, "", "", "", "", "", "", ""]
  }

  function RecordCode(r: Record): Code {
    NatCode(Kind(r)) + (IntCode(NumberOf(r)) + InstantCode(InstantOf(r), TextsCode(RecordTexts(r))))
  }

  lemma RecordDecodes(r: Record, q: Record)
    requires RecordCode(r) == RecordCode(q)
    ensures r == q
  {
    var s, t := RecordTexts(r), RecordTexts(q);
    var a, b := InstantCode(InstantOf(r), TextsCode(s)), InstantCode(InstantOf(q), TextsCode(t));
    NatDecodes(Kind(r), Kind(q), IntCode(NumberOf(r)) + a, IntCode(NumberOf(q)) + b);
    IntDecodes(NumberOf(r), NumberOf(q), a, b);
    InstantDecodes(InstantOf(r), InstantOf(q), TextsCode(s), TextsCode(t));
    TextsDecode(s, t, [], []);
    assert s[0] == t[0] && s[1] == t[1] && s[2] == t[2] && s[3] == t[3];
    assert s[4] == t[4] && s[5] == t[5] && s[6] == t[6] && s[7] == t[7];
  }

  function DetailCode(d: StrictCutover.Detail): Code {
    match d
    case SealDetail(id, digest, report, seqNo, hash, count) =>
      NatCode(0) + (IntCode(seqNo) + (IntCode(count) + TextsCode([id, digest, report, hash])))
    case ActivationDetail(id, digest, seqNo, hash, prev) =>
      NatCode(1) + (IntCode(seqNo) + (IntCode(0) + TextsCode([id, digest, hash, prev])))
  }

  lemma DetailDecodes(d: StrictCutover.Detail, e: StrictCutover.Detail)
    requires DetailCode(d) == DetailCode(e)
    ensures d == e
  {
    var (k, m, i, s) := DetailParts(d);
    var (l, n, j, t) := DetailParts(e);
    NatDecodes(k, l, IntCode(m) + (IntCode(i) + TextsCode(s)), IntCode(n) + (IntCode(j) + TextsCode(t)));
    IntDecodes(m, n, IntCode(i) + TextsCode(s), IntCode(j) + TextsCode(t));
    IntDecodes(i, j, TextsCode(s), TextsCode(t));
    TextsDecode(s, t, [], []);
    assert s[0] == t[0] && s[1] == t[1] && s[2] == t[2] && s[3] == t[3];
  }

  function DetailParts(d: StrictCutover.Detail): (r: (nat, int, int, seq<string>))
    ensures DetailCode(d) == NatCode(r.0) + (IntCode(r.1) + (IntCode(r.2) + TextsCode(r.3))) && |r.3| == 4
  {
    match d
    case SealDetail(id, digest, report, seqNo, hash, count) => (0, seqNo, count, [id, digest, report, hash])
    case ActivationDetail(id, digest, seqNo, hash, prev) => (1, seqNo, 0, [id, digest, hash, prev])
  }

  // -- Code words as file lines and as object texts -----------------------------------------------

  function AsBytes(c: Code): Bytes {
    seq(|c|, i requires 0 <= i < |c| => if c[i] then 97 else 98)
  }

  function AsLetters(c: Code): string {
    seq(|c|, i requires 0 <= i < |c| => if c[i] then 'a' else 'b')
  }

  lemma BytesDecode(c: Code, d: Code)
    requires AsBytes(c) == AsBytes(d)
    ensures c == d
  {
    assert |c| == |AsBytes(c)| == |AsBytes(d)| == |d|;
    forall i | 0 <= i < |c| ensures c[i] == d[i] { assert AsBytes(c)[i] == AsBytes(d)[i]; }
  }

  lemma LettersDecode(c: Code, d: Code)
    requires AsLetters(c) == AsLetters(d)
    ensures c == d
  {
    assert |c| == |AsLetters(c)| == |AsLetters(d)| == |d|;
    forall i | 0 <= i < |c| ensures c[i] == d[i] { assert AsLetters(c)[i] == AsLetters(d)[i]; }
  }

  ghost function DecodeBytes<T(!new)>(code: T -> Code, raw: Bytes): Option<T> {
    if exists v :: AsBytes(code(v)) == raw then (var v :| AsBytes(code(v)) == raw; Some(v)) else None
  }

  lemma BytesReadBack<T(!new)>(code: T -> Code, v: T)
    requires forall a, b :: code(a) == code(b) ==> a == b
    ensures DecodeBytes(code, AsBytes(code(v))) == Some(v)
  {
    var w := DecodeBytes(code, AsBytes(code(v))).value;
    assert AsBytes(code(w)) == AsBytes(code(v));
    BytesDecode(code(w), code(v));
  }

  /** Any injective code gives a codec that satisfies the laws. */
  lemma CodecExists<T(!new)>(code: T -> Code) returns (codec: Codec<T>)
    requires forall v, w :: code(v) == code(w) ==> v == w
    requires forall v :: code(v) != []
    ensures codec.Valid()
  {
    codec := Codec(v => AsBytes(code(v)), raw => DecodeBytes(code, raw));
    forall v ensures codec.decode(codec.encode(v)) == Some(v) && codec.encode(v) != [] && LineFree(codec.encode(v)) {
      BytesReadBack(code, v);
      assert |AsBytes(code(v))| == |code(v)| > 0;
    }
  }

  lemma RecordCodec() returns (codec: Codec<Record>)
    ensures codec.Valid()
  {
    forall r, q | RecordCode(r) == RecordCode(q) ensures r == q { RecordDecodes(r, q); }
    codec := CodecExists(RecordCode);
  }

  lemma RowCodec() returns (codec: Codec<AuditRow>)
    ensures codec.Valid()
  {
    forall r, q | RowCode(r) == RowCode(q) ensures r == q { RowDecodes(r, q); }
    codec := CodecExists(RowCode);
  }

  /** An object text around letters. */
  function ObjectText(c: Code): string {
    "{" + AsLetters(c) + "}"
  }

  lemma {:induction false} LettersStayInside(c: Code)
    ensures ScanText(Inside(1, false, false), AsLetters(c)) == Inside(1, false, false)
  {
    if c != [] {
      LettersStayInside(c[1..]);
      assert AsLetters(c)[1..] == AsLetters(c[1..]);
    }
  }

  lemma ObjectTextScans(c: Code)
    ensures IsObjectText(ObjectText(c))
  {
    LettersStayInside(c);
    ScanAppend(AtStart, "{" + AsLetters(c), "}");
    ScanAppend(AtStart, "{", AsLetters(c));
    assert ScanText(AtStart, "{") == ScanText(Inside(1, false, false), "{"[1..]) == Inside(1, false, false);
    assert ScanText(Inside(1, false, false), "}") == ScanText(AtEnd, "}"[1..]) == AtEnd;
  }

  // -- The environments ---------------------------------------------------------------------------

  function Body(d: Display, detail: string): string {
    ObjectText(TextsCode(DisplayTexts(d) + [detail]))
  }

  lemma BodyDecodes(d: Display, detail: string, e: Display, other: string)
    requires Body(d, detail) == Body(e, other)
    ensures d == e && detail == other
  {
    var s, t := DisplayTexts(d) + [detail], DisplayTexts(e) + [other];
    var a, b := AsLetters(TextsCode(s)), AsLetters(TextsCode(t));
    assert a == ObjectText(TextsCode(s))[1..|a| + 1] && |a| + 2 == |b| + 2;
    assert b == ObjectText(TextsCode(t))[1..|b| + 1];
    LettersDecode(TextsCode(s), TextsCode(t));
    TextsDecode(s, t, [], []);
    assert s[0] == t[0] && s[1] == t[1] && s[2] == t[2] && s[3] == t[3] && s[4] == t[4];
  }

  function Zeros(n: nat): string {
    seq(n, _ => '0')
  }

  /** A signed count of zeros. */
  function Printed(t: Instant): string {
    if t >= 0 then "+" + Zeros(t) else "-" + Zeros(-t)
  }

  function ReadPrinted(s: string): Instant {
    if s == "" then 0 else if s[0] == '-' then 1 - |s| else |s| - 1
  }

  ghost function ParseBody(text: string): Option<Payload> {
    if exists d, detail :: Body(d, detail) == text then
      var d, detail :| Body(d, detail) == text;
      Some(Payload(Some(d), detail))
    else None
  }

  /** A log environment that meets every law. */
  lemma ChainEnvExists() returns (env: Env)
    ensures env.Valid() && env.write == Body && env.parse == (text => ParseBody(text))
  {
    env := Env(_ => Zeros(DIGEST_LENGTH), Printed, ReadPrinted, text => ParseBody(text), Body);
    forall d, detail ensures env.parse(env.write(d, detail)) == Some(Payload(Some(d), detail)) {
      var p := ParseBody(Body(d, detail)).value;
      assert exists e, other :: Body(e, other) == Body(d, detail) && p == Payload(Some(e), other);
      var e, other :| Body(e, other) == Body(d, detail) && p == Payload(Some(e), other);
      BodyDecodes(d, detail, e, other);
    }
    forall text | env.parse(text).Some? ensures IsObjectText(text) {
      var d, detail :| Body(d, detail) == text;
      ObjectTextScans(TextsCode(DisplayTexts(d) + [detail]));
    }
  }

  /** A sink environment that meets every law, for any digest and any signature check. */
  lemma SinkEnvExists(digest: Bytes -> string, signatureOk: Record -> bool) returns (env: SinkEnv)
    ensures env.Valid() && env.digest == digest && env.signatureOk == signatureOk
  {
    var codec := RecordCodec();
    env := SinkEnv(codec, digest, signatureOk);
  }

  lemma BundleEnvExists(digest: Bytes -> string, signatureOk: Record -> bool, fileHash: Bytes -> string)
    returns (env: AuditBundle.BundleEnv)
    ensures env.Valid() && env.sink.digest == digest && env.sink.signatureOk == signatureOk && env.fileHash == fileHash
  {
    var chain := ChainEnvExists();
    var sink := SinkEnvExists(digest, signatureOk);
    var rows := RowCodec();
    var records := RecordCodec();
    env := AuditBundle.BundleEnv(chain, sink, rows, records, fileHash);
  }

  function DetailText(d: StrictCutover.Detail): string {
    AsLetters(DetailCode(d))
  }

  ghost function ReadDetail(text: string): Option<StrictCutover.Detail> {
    if exists d :: DetailText(d) == text then (var d :| DetailText(d) == text; Some(d)) else None
  }

  lemma CutoverEnvExists() returns (env: StrictCutover.CutoverEnv)
    ensures env.Valid()
  {
    var chain := ChainEnvExists();
    env := StrictCutover.CutoverEnv(chain, Body, DetailText, text => ReadDetail(text));
    forall d, text ensures chain.parse(Body(d, text)) == Some(Payload(Some(d), text)) {
      assert chain.parse(chain.write(d, text)) == Some(Payload(Some(d), text));
    }
    forall d ensures env.readDetail(env.detailText(d)) == Some(d) {
      var e := ReadDetail(DetailText(d)).value;
      assert DetailText(e) == DetailText(d);
      LettersDecode(DetailCode(e), DetailCode(d));
      DetailDecodes(e, d);
    }
  }

  function DumpTexts(texts: seq<string>): string {
    AsLetters(NatCode(|texts|) + TextsCode(texts))
  }

  ghost function LoadTexts(text: string): Option<seq<string>> {
    if exists texts :: DumpTexts(texts) == text then (var texts :| DumpTexts(texts) == text; Some(texts)) else None
  }

  lemma SpansEnvExists() returns (env: SourceSpans.Env)
    ensures env.Valid()
  {
    KeyLife.ToyCryptoIsValid();
    env := SourceSpans.Env(text => text, KeyLife.ToyCrypto(), DumpTexts, text => LoadTexts(text));
    forall texts ensures env.load(env.dump(texts)) == Some(texts) {
      var read := LoadTexts(DumpTexts(texts)).value;
      assert DumpTexts(read) == DumpTexts(texts);
      LettersDecode(NatCode(|read|) + TextsCode(read), NatCode(|texts|) + TextsCode(texts));
      NatDecodes(|read|, |texts|, TextsCode(read), TextsCode(texts));
      TextsDecode(read, texts, [], []);
    }
  }

  /** Every set of laws assumed of the log, the sink, the bundle, the cutover and the spans can
      be met. */
  lemma LawsCanBeMet()
    ensures exists env: Env :: env.Valid()
    ensures exists env: SinkEnv :: env.Valid()
    ensures exists env: AuditBundle.BundleEnv :: env.Valid()
    ensures exists env: StrictCutover.CutoverEnv :: env.Valid()
    ensures exists env: SourceSpans.Env :: env.Valid()
  {
    var chain := ChainEnvExists();
    var bundle := BundleEnvExists(_ => "", _ => true, _ => "");
    var cutover := CutoverEnvExists();
    var spans := SpansEnvExists();
    assert spans.Valid();
    assert chain.Valid() && bundle.sink.Valid() && bundle.Valid() && cutover.Valid();
  }

  // -- A sound log that is refused ---------------------------------------------------------------

  /** An honest run whose log and anchors are accepted when the head is captured last, and
      refused for its head alone when that is captured before anything was appended. */
  ghost predicate RefusedForItsHead(env: Env, senv: SinkEnv, trust: Trust, events: seq<Event>, incoming: seq<Record>) {
    var log, records := Run(env, FRESH_WRITER, events).log, AppendAll([], incoming);
    && env.Valid() && senv.Valid() && log != [] && ChainOk(env, log)
    && HonestAppends(senv, trust, Run(env, FRESH_WRITER, events).signed, incoming)
    && Unforged(senv, trust, records, Run(env, FRESH_WRITER, events).signed)
    && AnchorsAccepted(senv, trust, Snapshot(log, RecordedHead(senv, records)), records)
    && var early := Growing(log, 0, |log|, |log|, RecordedHead(senv, records));
       ReadInOrder(early) && AnchorsMatch(senv, trust, early, records) && !AnchorsAccepted(senv, trust, early, records)
  }

  const NO_DISPLAY := Display("", "", "", "")
  const SAMPLE_CHAIN := "chain_" + Zeros(32)
  const SAMPLE_TRUST := Trust("sink", SAMPLE_CHAIN, {"root"})

  /** An anchor of the first row, with the fields a signed record carries. */
  function SampleAnchor(row: AuditRow): Record {
    Anchor(SAMPLE_CHAIN, "anc_" + Zeros(24), 1, row.rowHash, Signed("sink", Some(0), "key", "root", ""))
  }

  lemma SampleAnchorIsOk(senv: SinkEnv, row: AuditRow)
    requires senv.signatureOk(SampleAnchor(row)) && IsDigest(row.rowHash)
    ensures RecordOk(senv, SAMPLE_TRUST, SampleAnchor(row))
  {
    assert "anc_" <= "anc_" + Zeros(24) && "chain_" <= SAMPLE_CHAIN;
  }

  /** One row appended and anchored while the verifier was between its first and second read. */
  lemma SoundLogRefusedForItsHead()
    ensures exists env, senv, trust, events, incoming :: RefusedForItsHead(env, senv, trust, events, incoming)
  {
    var env := ChainEnvExists();
    var senv := SinkEnvExists(_ => "", _ => true);
    var row := NextRow(env, [], 0, NO_DISPLAY, env.write(NO_DISPLAY, ""));
    var append, sign := AppendRow(0, NO_DISPLAY, ""), SignAnchor(SampleAnchor(row), 1);
    SampleRun(env, append, sign);
    SampleAnchorIsOk(senv, row);
    SampleSink(sign.record);
    OneAnchoredRowIsRefused(env, senv, SAMPLE_TRUST, [append, sign], row, sign.record);
  }

  lemma OneAnchoredRowIsRefused(
    env: Env, senv: SinkEnv, trust: Trust, events: seq<Event>, row: AuditRow, anchor: Record)
    requires env.Valid() && senv.Valid() && Run(env, FRESH_WRITER, events) == Writer([row], {anchor})
    requires anchor.Anchor? && anchor.seqNo == 1 && RecordOk(senv, trust, anchor)
    requires AppendAll([], [anchor]) == [anchor] == Anchors([anchor]) && LatestSeq([anchor]) == 1
    ensures RefusedForItsHead(env, senv, trust, events, [anchor])
  {
    RunsAreHonest(env, events);
    assert [row][..1] == [row];
    HonestLogAcceptedIff(env, senv, trust, events, [anchor], 0, 1, 1);
    HonestLogAcceptedIff(env, senv, trust, events, [anchor], 1, 1, 1);
    assert Growing([row], 1, 1, 1, RecordedHead(senv, [anchor])) == Snapshot([row], RecordedHead(senv, [anchor]));
  }

  lemma SampleRun(env: Env, append: Event, sign: Event)
    requires append == AppendRow(0, NO_DISPLAY, "")
    requires sign == SignAnchor(SampleAnchor(NextRow(env, [], 0, NO_DISPLAY, env.write(NO_DISPLAY, ""))), 1)
    ensures Run(env, FRESH_WRITER, [append, sign]) ==
      Writer([NextRow(env, [], 0, NO_DISPLAY, env.write(NO_DISPLAY, ""))], {sign.record})
  {
    assert [append, sign][..1] == [append] && [append][..0] == [];
    assert Run(env, FRESH_WRITER, []) == FRESH_WRITER;
    assert Run(env, FRESH_WRITER, [append]) == After(env, FRESH_WRITER, append);
  }

  lemma SampleSink(anchor: Record)
    requires anchor.Anchor?
    ensures AppendAll([], [anchor]) == [anchor] && Anchors([anchor]) == [anchor] && LatestSeq([anchor]) == anchor.seqNo
  {
    assert [anchor][1..] == [];
    assert LocalFileAnchorSink.Appended([], anchor).0 == [anchor];
  }
}
