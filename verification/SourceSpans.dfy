/** Source spans: quoted text is stored as a reference to row content or as an encrypted entry,
    and resolved again from the stored row. */
module SourceSpans {
  import opened Common
  import opened Custody

  type Id = string

  datatype TextField = NoText | Text(text: string) | NotText

  datatype HashField = NoHash | NullHash | Hash(hash: string)

  datatype Ref = NoRef | SelfRef | EncryptedRef | OtherRef

  datatype Span = Span(text: TextField, ref: Ref, hash: HashField, index: Option<int>, memoryId: Option<Id>)

  datatype SpanError = SelfHashDiffers | EncryptedNotRehydrated | TextNotString

  type Normalized = Result<seq<Span>, SpanError>

  datatype SplitSpans = SplitSpans(spans: seq<Span>, texts: seq<string>)

  /** Hashing, encryption, and the JSON form of a list of texts. */
  datatype Env = Env(sha: string -> string, crypto: Crypto, dump: seq<string> -> string, load: string -> Option<seq<string>>) {
    ghost predicate Valid() {
      crypto.Valid() && forall texts :: load(dump(texts)) == Some(texts)
    }

    function HashOf(text: string): string {
      "sha256:" + sha(text)
    }
  }

  // -- Normalising and splitting ------------------------------------------------------------

  /** One span: byte-identical text becomes a reference to the row content. */
  function NormalizeOne(env: Env, s: Span, contentHash: string): Result<Span, SpanError> {
    if s.ref.SelfRef? then
      if s.hash != Hash(contentHash) then Err(SelfHashDiffers) else Ok(s.(text := NoText))
    else if IsContent(env, s, contentHash) then Ok(s.(text := NoText, ref := SelfRef))
    else Ok(s)
  }

  /** Quoted text that is the row content, by its own hash and by the hash it names. */
  predicate IsContent(env: Env, s: Span, contentHash: string) {
    s.text.Text? && env.HashOf(s.text.text) == contentHash && s.hash == Hash(contentHash)
  }

  function NormalizeAll(env: Env, spans: seq<Span>, contentHash: string): Normalized {
    if spans == [] then Ok([])
    else
      var before := NormalizeAll(env, spans[..|spans| - 1], contentHash);
      if before.Err? then before
      else
        var last := NormalizeOne(env, spans[|spans| - 1], contentHash);
        if last.Err? then Err(last.error) else Ok(before.value + [last.value])
  }

  /** One span, when `stored` texts precede it: its stored form and the text to encrypt. */
  function SplitOne(env: Env, s: Span, stored: nat): Result<(Span, seq<string>), SpanError> {
    var bare := s.(text := NoText);
    if s.ref.SelfRef? then Ok((bare, []))
    else if s.ref.EncryptedRef? then Err(EncryptedNotRehydrated)
    else
      match s.text
      case NoText => Ok((bare, []))
      case NotText => Err(TextNotString)
      case Text(t) =>
        var hash := if s.hash.NoHash? then Hash(env.HashOf(t)) else s.hash;
        Ok((bare.(hash := hash, ref := EncryptedRef, index := Some(stored)), [t]))
  }

  function SplitAll(env: Env, spans: seq<Span>): Result<SplitSpans, SpanError> {
    if spans == [] then Ok(SplitSpans([], []))
    else
      var before := SplitAll(env, spans[..|spans| - 1]);
      if before.Err? then before
      else
        var last := SplitOne(env, spans[|spans| - 1], |before.value.texts|);
        if last.Err? then Err(last.error)
        else Ok(SplitSpans(before.value.spans + [last.value.0], before.value.texts + last.value.1))
  }

  method NormalizeSelfSpans(env: Env, spans: seq<Span>, contentHash: string) returns (normalized: Normalized)
    ensures normalized == NormalizeAll(env, spans, contentHash)
  {
    var out: seq<Span> := [];
    for i := 0 to |spans|
      invariant NormalizeAll(env, spans[..i], contentHash) == Ok(out)
    {
      assert spans[..i + 1][..i] == spans[..i];
      var span := spans[i];
      if span.ref == SelfRef {
        if span.hash != Hash(contentHash) {
          NormalizeStopsEarly(env, spans, contentHash, i + 1);
          return Err(SelfHashDiffers);
        }
        span := span.(text := NoText);
      } else if span.text.Text? && env.HashOf(span.text.text) == contentHash && span.hash == Hash(contentHash) {
        span := span.(text := NoText, ref := SelfRef);
      }
      out := out + [span];
    }
    assert spans[..|spans|] == spans;
    return Ok(out);
  }

  lemma {:induction false} NormalizeStopsEarly(env: Env, spans: seq<Span>, contentHash: string, n: nat)
    requires n <= |spans| && NormalizeAll(env, spans[..n], contentHash).Err?
    ensures NormalizeAll(env, spans, contentHash) == NormalizeAll(env, spans[..n], contentHash)
  {
    if n == |spans| {
      assert spans[..n] == spans;
    } else {
      assert spans[..|spans| - 1][..n] == spans[..n];
      NormalizeStopsEarly(env, spans[..|spans| - 1], contentHash, n);
    }
  }

  method SplitSourceSpanTexts(env: Env, spans: seq<Span>) returns (result: Result<SplitSpans, SpanError>)
    ensures result == SplitAll(env, spans)
  {
    var stored: seq<Span>, texts: seq<string> := [], [];
    for i := 0 to |spans|
      invariant SplitAll(env, spans[..i]) == Ok(SplitSpans(stored, texts))
    {
      assert spans[..i + 1][..i] == spans[..i];
      var span, text := spans[i].(text := NoText), spans[i].text;
      assert texts + [] == texts;
      if span.ref != SelfRef {
        if span.ref == EncryptedRef {
          SplitStopsEarly(env, spans, i + 1);
          return Err(EncryptedNotRehydrated);
        }
        if text.NotText? {
          SplitStopsEarly(env, spans, i + 1);
          return Err(TextNotString);
        }
        if text.Text? {
          if span.hash.NoHash? {
            span := span.(hash := Hash(env.HashOf(text.text)));
          }
          span := span.(ref := EncryptedRef, index := Some(|texts|));
          texts := texts + [text.text];
        }
      }
      stored := stored + [span];
    }
    assert spans[..|spans|] == spans;
    return Ok(SplitSpans(stored, texts));
  }

  lemma {:induction false} SplitStopsEarly(env: Env, spans: seq<Span>, n: nat)
    requires n <= |spans| && SplitAll(env, spans[..n]).Err?
    ensures SplitAll(env, spans) == SplitAll(env, spans[..n])
  {
    if n == |spans| {
      assert spans[..n] == spans;
    } else {
      assert spans[..|spans| - 1][..n] == spans[..n];
      SplitStopsEarly(env, spans[..|spans| - 1], n);
    }
  }

  // -- Storing ------------------------------------------------------------------------------

  datatype Row = Row(contentHash: string, subject: string, content: Bytes, spansEnc: Option<Bytes>, spans: seq<Span>)

  /** The row a write stores, or the reason its spans are refused. */
  function Persist(env: Env, subject: string, content: string, spans: seq<Span>, key: Bytes): Result<Row, SpanError> {
    var normalized := NormalizeAll(env, spans, env.HashOf(content));
    if normalized.Err? then Err(normalized.error)
    else
      var split := SplitAll(env, normalized.value);
      if split.Err? then Err(split.error)
      else
        var texts := split.value.texts;
        var enc := if texts == [] then None else Some(env.crypto.encrypt(env.dump(texts), key));
        Ok(Row(env.HashOf(content), subject, env.crypto.encrypt(content, key), enc, split.value.spans))
  }

  /** A stored span as metadata hands it out: references name their row. */
  function Served(id: Id, s: Span): Span {
    if s.ref.SelfRef? || s.ref.EncryptedRef? then s.(memoryId := Some(id)) else s
  }

  // -- Resolving ------------------------------------------------------------------------------

  /** Rows, live keys, and whom the policy lets read what. */
  datatype Vault = Vault(rows: map<Id, Row>, keys: map<string, Bytes>)

  function ReadContent(env: Env, v: Vault, id: Id): Option<string> {
    if id !in v.rows || v.rows[id].subject !in v.keys then None
    else env.crypto.decrypt(v.rows[id].content, v.keys[v.rows[id].subject])
  }

  function ReadSpanText(env: Env, v: Vault, id: Id, index: Option<int>, hash: HashField): Option<string> {
    if index.None? || index.value < 0 then None
    else if id !in v.rows || v.rows[id].spansEnc.None? || v.rows[id].subject !in v.keys then None
    else
      var plain := env.crypto.decrypt(v.rows[id].spansEnc.value, v.keys[v.rows[id].subject]);
      if plain.None? then None
      else
        var texts := env.load(plain.value);
        if texts.None? || index.value >= |texts.value| then None
        else
          var text := texts.value[index.value];
          if Names(hash) && hash != Hash(env.HashOf(text)) then None else Some(text)
  }

  /** A hash field that says anything. */
  predicate Names(hash: HashField) {
    hash.Hash? && hash.hash != ""
  }

  /** `reader` is None for trusted callers; otherwise it tells which rows the principal may read. */
  function ResolveText(env: Env, v: Vault, s: Span, reader: Option<Id -> bool>): Option<string> {
    if s.text.Text? then Some(s.text.text)
    else if s.memoryId.None? || s.memoryId.value == "" then None
    else
      var id := s.memoryId.value;
      if reader.Some? && !reader.value(id) then None
      else if reader.Some? && s.ref.EncryptedRef? && !Names(s.hash) then None
      else if s.ref.SelfRef? then
        if id !in v.rows || s.hash != Hash(v.rows[id].contentHash) then None else ReadContent(env, v, id)
      else if s.ref.EncryptedRef? then ReadSpanText(env, v, id, s.index, s.hash)
      else None
  }

  // -- The round trip ----------------------------------------------------------------------------

  ghost predicate Collides(env: Env, a: string, b: string) {
    a != b && env.HashOf(a) == env.HashOf(b)
  }

  /** A span that a write accepts. A span that still claims to be encrypted passes only when
      its text is the row content. */
  predicate Acceptable(env: Env, s: Span, contentHash: string) {
    if s.ref.SelfRef? then s.hash == Hash(contentHash)
    else IsContent(env, s, contentHash) || (!s.ref.EncryptedRef? && !s.text.NotText?)
  }

  /** Normalising keeps spans in place, and fails exactly on a self reference with another hash. */
  lemma {:induction false} NormalizeMeaning(env: Env, spans: seq<Span>, contentHash: string)
    ensures var n := NormalizeAll(env, spans, contentHash);
      && (n.Ok? <==> forall i :: 0 <= i < |spans| ==> NormalizeOne(env, spans[i], contentHash).Ok?)
      && (n.Ok? ==> |n.value| == |spans|)
      && (n.Ok? ==> forall i :: 0 <= i < |spans| ==> Ok(n.value[i]) == NormalizeOne(env, spans[i], contentHash))
  {
    if spans != [] { NormalizeMeaning(env, spans[..|spans| - 1], contentHash); }
  }

  /** Where a stored span's text went. */
  ghost predicate StoredAs(env: Env, s: Span, stored: Span, texts: seq<string>) {
    && stored.text.NoText? && stored.memoryId == s.memoryId
    && (if s.ref.SelfRef? || s.text.NoText? then stored == s.(text := NoText)
        else
          && s.text.Text? && stored.ref.EncryptedRef?
          && stored.hash == (if s.hash.NoHash? then Hash(env.HashOf(s.text.text)) else s.hash)
          && stored.index.Some? && 0 <= stored.index.value < |texts| && texts[stored.index.value] == s.text.text)
  }

  /** Every stored index names the text it was taken from. */
  lemma {:induction false} SplitMeaning(env: Env, spans: seq<Span>)
    ensures var r := SplitAll(env, spans);
      && (r.Ok? <==> forall i :: 0 <= i < |spans| ==> SplitOne(env, spans[i], 0).Ok?)
      && (r.Ok? ==> |r.value.spans| == |spans|)
      && (r.Ok? ==> forall i :: 0 <= i < |spans| ==> StoredAs(env, spans[i], r.value.spans[i], r.value.texts))
  {
    if spans != [] {
      var before, last := spans[..|spans| - 1], spans[|spans| - 1];
      SplitMeaning(env, before);
      var r := SplitAll(env, before);
      assert r.Ok? ==> (SplitOne(env, last, 0).Ok? <==> SplitOne(env, last, |r.value.texts|).Ok?);
      if r.Ok? && SplitOne(env, last, |r.value.texts|).Ok? {
        var all := SplitAll(env, spans).value;
        forall i | 0 <= i < |spans| ensures StoredAs(env, spans[i], all.spans[i], all.texts) {
          if i < |before| { assert StoredAs(env, before[i], r.value.spans[i], r.value.texts); }
        }
      }
    }
  }

  /** A write refuses its spans exactly when one of them is not acceptable. */
  lemma PersistAccepts(env: Env, subject: string, content: string, spans: seq<Span>, key: Bytes)
    ensures Persist(env, subject, content, spans, key).Ok? <==>
      forall i :: 0 <= i < |spans| ==> Acceptable(env, spans[i], env.HashOf(content))
  {
    var h := env.HashOf(content);
    NormalizeMeaning(env, spans, h);
    var n := NormalizeAll(env, spans, h);
    if n.Ok? {
      SplitMeaning(env, n.value);
      forall i | 0 <= i < |spans| ensures SplitOne(env, n.value[i], 0).Ok? <==> Acceptable(env, spans[i], h) {
        assert Ok(n.value[i]) == NormalizeOne(env, spans[i], h);
      }
    } else {
      var i :| 0 <= i < |spans| && NormalizeOne(env, spans[i], h).Err?;
      assert !Acceptable(env, spans[i], h);
    }
  }

  /** What a reference without text of its own resolves to, for whatever rows are stored: only a row
      with a live key that the caller may read; a self reference only to the content it names by hash,
      and an encrypted one only to the entry at its index, which has the hash it names - and must name
      one for a principal. */
  lemma ResolvedMeans(env: Env, v: Vault, s: Span, reader: Option<Id -> bool>, text: string)
    requires !s.text.Text? && ResolveText(env, v, s, reader) == Some(text)
    ensures s.memoryId.Some? && s.memoryId.value in v.rows && v.rows[s.memoryId.value].subject in v.keys
    ensures MayRead(reader, s.memoryId.value) && (s.ref.SelfRef? || s.ref.EncryptedRef?)
    ensures var row := v.rows[s.memoryId.value];
      var key := v.keys[row.subject];
      && (s.ref.SelfRef? ==> s.hash == Hash(row.contentHash) && env.crypto.decrypt(row.content, key) == Some(text))
      && (s.ref.EncryptedRef? ==>
            && s.index.Some? && 0 <= s.index.value && row.spansEnc.Some?
            && (s.hash.Hash? && s.hash.hash != "" ==> env.HashOf(text) == s.hash.hash)
            && (reader.Some? ==> s.hash.Hash? && s.hash.hash != ""))
  {
  }

  /** Which reason is given: a self reference with another hash anywhere, or else whatever is wrong
      with the first span that is not acceptable. */
  lemma RefusalNames(env: Env, subject: string, content: string, spans: seq<Span>, key: Bytes, i: nat)
    requires i < |spans| && !Acceptable(env, spans[i], env.HashOf(content))
    requires forall j :: 0 <= j < i ==> Acceptable(env, spans[j], env.HashOf(content))
    ensures Persist(env, subject, content, spans, key) == Err(
      if exists j :: 0 <= j < |spans| && spans[j].ref.SelfRef? && spans[j].hash != Hash(env.HashOf(content)) then SelfHashDiffers
      else if spans[i].ref.EncryptedRef? then EncryptedNotRehydrated else TextNotString)
  {
    var h := env.HashOf(content);
    NormalizeMeaning(env, spans, h);
    NormalizeError(env, spans, h);
    var n := NormalizeAll(env, spans, h);
    if n.Ok? {
      assert forall j :: 0 <= j < |spans| ==> NormalizeOne(env, spans[j], h).Ok?;
      forall j | 0 <= j < i ensures SplitOne(env, n.value[j], 0).Ok? { assert Ok(n.value[j]) == NormalizeOne(env, spans[j], h); }
      assert Ok(n.value[i]) == NormalizeOne(env, spans[i], h);
      FirstSplitError(env, n.value, i);
    }
  }

  lemma {:induction false} NormalizeError(env: Env, spans: seq<Span>, contentHash: string)
    ensures NormalizeAll(env, spans, contentHash).Err? ==> NormalizeAll(env, spans, contentHash).error == SelfHashDiffers
  {
    if spans != [] { NormalizeError(env, spans[..|spans| - 1], contentHash); }
  }

  /** Splitting stops with the error of the first span it cannot store. */
  lemma {:induction false} FirstSplitError(env: Env, spans: seq<Span>, i: nat)
    requires i < |spans| && SplitOne(env, spans[i], 0).Err?
    requires forall j :: 0 <= j < i ==> SplitOne(env, spans[j], 0).Ok?
    ensures SplitAll(env, spans) == Err(SplitOne(env, spans[i], 0).error)
  {
    var init := spans[..|spans| - 1];
    SplitMeaning(env, init);
    if i < |init| {
      FirstSplitError(env, init, i);
    } else {
      assert SplitAll(env, init).Ok?;
    }
  }

  /** What a stored span resolves to, for trusted callers (no principal) and for a principal
      who may read the row. */
  function Expected(env: Env, s: Span, content: string, principal: bool): Option<string> {
    var h := env.HashOf(content);
    if s.ref.SelfRef? then Some(content)
    else
      match s.text
      case Text(t) =>
        if IsContent(env, s, h) then Some(content)
        else if s.hash.NoHash? || s.hash == Hash(env.HashOf(t)) then Some(t)
        else if Names(s.hash) || principal then None
        else Some(t)
      case _ => None
  }

  ghost predicate Holds(v: Vault, id: Id, row: Row, key: Bytes) {
    id != "" && id in v.rows && v.rows[id] == row && row.subject in v.keys && v.keys[row.subject] == key
  }

  ghost predicate MayRead(reader: Option<Id -> bool>, id: Id) {
    reader.Some? ==> reader.value(id)
  }

  /** Normalise, split, store, serve, resolve: span `i` of the row comes back as expected. */
  lemma RoundTrip(
    env: Env, subject: string, content: string, spans: seq<Span>, key: Bytes, v: Vault, id: Id, i: nat,
    reader: Option<Id -> bool>)
    requires env.Valid() && i < |spans|
    requires var row := Persist(env, subject, content, spans, key);
      row.Ok? && Holds(v, id, row.value, key) && MayRead(reader, id)
    requires spans[i].ref.SelfRef? || spans[i].text.Text?
    ensures var row := Persist(env, subject, content, spans, key).value;
      |row.spans| == |spans| && ResolveText(env, v, Served(id, row.spans[i]), reader) == Expected(env, spans[i], content, reader.Some?)
  {
    var h := env.HashOf(content);
    NormalizeMeaning(env, spans, h);
    var n := NormalizeAll(env, spans, h).value;
    assert Ok(n[i]) == NormalizeOne(env, spans[i], h);
    SplitMeaning(env, n);
    var split := SplitAll(env, n).value;
    assert StoredAs(env, n[i], split.spans[i], split.texts);
    assert !IsContent(env, spans[i], h) && !spans[i].ref.SelfRef? ==> n[i] == spans[i];
    if n[i].ref.SelfRef? {
      SelfComesBack(env, v, split.spans[i], content, key, id, reader);
    } else {
      assert SplitOne(env, n[i], 0).Ok?;
      EncryptedComesBack(env, v, split.spans[i], split.texts, key, id, reader);
    }
  }

  lemma SelfComesBack(
    env: Env, v: Vault, stored: Span, content: string, key: Bytes, id: Id, reader: Option<Id -> bool>)
    requires env.Valid() && MayRead(reader, id)
    requires id in v.rows && Holds(v, id, v.rows[id], key)
    requires v.rows[id].content == env.crypto.encrypt(content, key) && v.rows[id].contentHash == env.HashOf(content)
    requires stored.text.NoText? && stored.ref.SelfRef? && stored.hash == Hash(env.HashOf(content))
    ensures ResolveText(env, v, Served(id, stored), reader) == Some(content)
  {
    ContentReadsBack(env, content, key);
  }

  lemma EncryptedComesBack(
    env: Env, v: Vault, stored: Span, texts: seq<string>, key: Bytes, id: Id, reader: Option<Id -> bool>)
    requires env.Valid() && MayRead(reader, id)
    requires id in v.rows && Holds(v, id, v.rows[id], key)
    requires v.rows[id].spansEnc == Some(env.crypto.encrypt(env.dump(texts), key))
    requires stored.text.NoText? && stored.ref.EncryptedRef? && stored.index.Some? && 0 <= stored.index.value < |texts|
    ensures var text := texts[stored.index.value];
      ResolveText(env, v, Served(id, stored), reader) ==
        if Names(stored.hash) then (if stored.hash == Hash(env.HashOf(text)) then Some(text) else None)
        else if reader.Some? then None else Some(text)
  {
    TextsReadBack(env, texts, key);
  }

  lemma ContentReadsBack(env: Env, content: string, key: Bytes)
    requires env.Valid()
    ensures env.crypto.decrypt(env.crypto.encrypt(content, key), key) == Some(content)
  {
  }

  lemma TextsReadBack(env: Env, texts: seq<string>, key: Bytes)
    requires env.Valid()
    ensures env.crypto.decrypt(env.crypto.encrypt(env.dump(texts), key), key) == Some(env.dump(texts))
    ensures env.load(env.dump(texts)) == Some(texts)
  {
  }

  /** For quoted text whose supplied hash is absent or right, every caller who may read the row
      gets the original text back, or the text and the row content collide. */
  lemma QuotedTextComesBack(
    env: Env, subject: string, content: string, spans: seq<Span>, key: Bytes, v: Vault, id: Id, i: nat,
    reader: Option<Id -> bool>)
    requires env.Valid() && i < |spans| && spans[i].text.Text?
    requires spans[i].hash in {NoHash, Hash(env.HashOf(spans[i].text.text))}
    requires var row := Persist(env, subject, content, spans, key);
      row.Ok? && Holds(v, id, row.value, key) && MayRead(reader, id)
    ensures var row, text := Persist(env, subject, content, spans, key).value, spans[i].text.text;
      |row.spans| == |spans|
      && (ResolveText(env, v, Served(id, row.spans[i]), reader) == Some(text) || Collides(env, text, content))
  {
    RoundTrip(env, subject, content, spans, key, v, id, i, reader);
    PersistAccepts(env, subject, content, spans, key);
    assert Acceptable(env, spans[i], env.HashOf(content));
  }

  /** A principal who may not read the row gets nothing from any of its references. */
  lemma HiddenRowResolvesToNothing(env: Env, v: Vault, id: Id, s: Span, reader: Id -> bool)
    requires (s.ref.SelfRef? || s.ref.EncryptedRef?) && !s.text.Text? && !reader(id)
    ensures ResolveText(env, v, Served(id, s), Some(reader)).None?
  {
  }

  /** Once the subject's key is gone, none of the row's references resolves. */
  lemma ErasedRowResolvesToNothing(env: Env, v: Vault, id: Id, s: Span, reader: Option<Id -> bool>)
    requires (s.ref.SelfRef? || s.ref.EncryptedRef?) && !s.text.Text?
    requires id in v.rows ==> v.rows[id].subject !in v.keys
    ensures ResolveText(env, v, Served(id, s), reader).None?
  {
  }
}
