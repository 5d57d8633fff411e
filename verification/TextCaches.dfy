/** One client's warm plaintext, token and corpus caches, over the rows and keys it writes. */
module TextCaches {
  import opened Common
  import opened Custody
  import opened Bm25

  type Id = string
  type Subject = string

  /** The encrypted texts of a stored row. */
  datatype Stored = Stored(subject: Subject, content: Bytes, index: Option<Bytes>)

  datatype Texts = Texts(content: string, index: string)

  /** Rows and keys of the client's tenant; a key of None is a tombstone. */
  datatype Vault = Vault(rows: map<Id, Stored>, keys: map<Subject, Option<Bytes>>) {
    function Key(s: Subject): Option<Bytes> {
      if s in keys then keys[s] else None
    }
  }

  /** What decrypting a row now gives: None without a row, a live key or readable content;
      an absent or unreadable index text falls back to the content. */
  function Fresh(crypto: Crypto, v: Vault, id: Id): Option<Texts> {
    if id !in v.rows then None
    else
      var row := v.rows[id];
      var key := v.Key(row.subject);
      if key.None? then None
      else
        var content := crypto.decrypt(row.content, key.value);
        if content.None? then None
        else
          var index := if row.index.None? then None else crypto.decrypt(row.index.value, key.value);
          Some(Texts(content.value, if index.Some? then index.value else content.value))
  }

  // -- Ordered dictionaries with a limit -----------------------------------------------------

  function Find<K(==,!new), V(!new)>(d: seq<(K, V)>, k: K): (r: Option<V>)
    ensures r.Some? ==> (k, r.value) in d
  {
    if d == [] then None else if d[0].0 == k then Some(d[0].1) else Find(d[1..], k)
  }

  function Pop<K(==,!new), V(!new)>(d: seq<(K, V)>, k: K): (r: seq<(K, V)>)
    ensures forall e :: e in r <==> e in d && e.0 != k
    ensures |r| <= |d| && (Find(d, k).Some? ==> |r| < |d|)
  {
    if d == [] then [] else (if d[0].0 == k then [] else [d[0]]) + Pop(d[1..], k)
  }

  /** The newest entries, at most `limit` of them. */
  function Trimmed<T(!new)>(d: seq<T>, limit: nat): (r: seq<T>)
    ensures forall e :: e in r ==> e in d
    ensures |r| <= limit
  {
    if |d| <= limit then d else d[|d| - limit..]
  }

  /** Stored and moved to the end, then trimmed from the front. */
  function Put<K(==,!new), V(!new)>(d: seq<(K, V)>, k: K, v: V, limit: nat): (r: seq<(K, V)>)
    ensures forall e :: e in r ==> e == (k, v) || (e in d && e.0 != k)
    ensures |r| <= limit
  {
    Trimmed(Pop(d, k) + [(k, v)], limit)
  }

  function MovedToEnd<K(==,!new), V(!new)>(d: seq<(K, V)>, k: K): (r: seq<(K, V)>)
    ensures forall e :: e in r ==> e in d
    ensures |r| <= |d|
  {
    match Find(d, k)
    case None => d
    case Some(v) => Pop(d, k) + [(k, v)]
  }

  lemma {:induction false} FindInAppend<K(!new), V(!new)>(d: seq<(K, V)>, k: K, v: V)
    requires forall e :: e in d ==> e.0 != k
    ensures Find(d + [(k, v)], k) == Some(v)
  {
    if d != [] {
      assert (d + [(k, v)])[1..] == d[1..] + [(k, v)];
      FindInAppend(d[1..], k, v);
    }
  }

  /** The newest entry survives trimming. */
  lemma PutIsFound<K(!new), V(!new)>(d: seq<(K, V)>, k: K, v: V, limit: nat)
    requires limit > 0
    ensures Find(Put(d, k, v, limit), k) == Some(v)
  {
    var rest := Pop(d, k);
    var whole := rest + [(k, v)];
    if |whole| > limit {
      var cut := |whole| - limit;
      assert whole[cut..] == rest[cut..] + [(k, v)];
      FindInAppend(rest[cut..], k, v);
    } else {
      FindInAppend(rest, k, v);
    }
  }

  // -- What a cache may hold ---------------------------------------------------------------

  datatype Env = Env(crypto: Crypto, tokenize: string -> Doc, log: real -> real)

  ghost predicate TextOk(env: Env, v: Vault, e: (Id, Texts)) {
    Fresh(env.crypto, v, e.0) == Some(e.1)
  }

  predicate TokensOk(env: Env, e: (Id, (string, Doc))) {
    e.1.1 == env.tokenize(e.1.0)
  }

  ghost predicate AllFresh(env: Env, v: Vault, ids: seq<Id>) {
    forall i :: 0 <= i < |ids| ==> Fresh(env.crypto, v, ids[i]).Some?
  }

  /** The tokenised index texts of readable rows, in order. */
  ghost function DocsOf(env: Env, v: Vault, ids: seq<Id>): seq<Doc>
    requires AllFresh(env, v, ids)
  {
    seq(|ids|, i requires 0 <= i < |ids| => env.tokenize(Fresh(env.crypto, v, ids[i]).value.index))
  }

  ghost predicate CorpusOk(env: Env, v: Vault, e: (seq<Id>, Corpus)) {
    AllFresh(env, v, e.0) && Describes(e.1, DocsOf(env, v, e.0))
  }

  /** The ids of `visible` whose row can be read. */
  ghost function Readable(env: Env, v: Vault, visible: seq<Id>): seq<Id> {
    Filter(visible, (id: Id) => Fresh(env.crypto, v, id).Some?)
  }

  lemma ReadableIsFresh(env: Env, v: Vault, visible: seq<Id>)
    ensures AllFresh(env, v, Readable(env, v, visible))
  {
    forall i | 0 <= i < |Readable(env, v, visible)|
      ensures Fresh(env.crypto, v, Readable(env, v, visible)[i]).Some?
    {
      assert Readable(env, v, visible)[i] in Readable(env, v, visible);
    }
  }

  lemma ReadableNext(env: Env, v: Vault, visible: seq<Id>, i: nat)
    requires i < |visible|
    ensures Readable(env, v, visible[..i + 1]) ==
      Readable(env, v, visible[..i]) + if Fresh(env.crypto, v, visible[i]).Some? then [visible[i]] else []
  {
    assert visible[..i + 1] == visible[..i] + [visible[i]];
    FilterAppend(visible[..i], [visible[i]], (id: Id) => Fresh(env.crypto, v, id).Some?);
  }

  /** The scores with no cache at all: every readable row decrypted and tokenised anew. */
  ghost predicate FreshScores(env: Env, v: Vault, cue: string, visible: seq<Id>, ids: seq<Id>, scores: seq<real>) {
    && ids == Readable(env, v, visible) && AllFresh(env, v, ids)
    && ScoresOf(env.log, DocsOf(env, v, ids), Elements(env.tokenize(cue)), scores)
  }

  ghost predicate IndexTextsOf(crypto: Crypto, v: Vault, ids: seq<Id>, indexTexts: map<Id, string>) {
    && indexTexts.Keys == Elements(ids)
    && forall id :: id in indexTexts ==> Fresh(crypto, v, id).Some? && indexTexts[id] == Fresh(crypto, v, id).value.index
  }

  // -- The client -----------------------------------------------------------------------------

  class Client {
    const env: Env
    const textLimit: nat
    const corpusLimit: nat
    var vault: Vault
    var texts: seq<(Id, Texts)>
    var tokens: seq<(Id, (string, Doc))>
    var corpora: seq<(seq<Id>, Corpus)>

    constructor (env: Env, vault: Vault, textLimit: nat, corpusLimit: nat)
      requires Keyed(vault)
      ensures Valid() && this.env == env && this.vault == vault
    {
      this.env := env;
      this.vault := vault;
      this.textLimit, this.corpusLimit := textLimit, corpusLimit;
      texts, tokens, corpora := [], [], [];
    }

    /** Every entry is what computing it now would give. */
    ghost predicate Valid()
      reads this
    {
      && (forall e :: e in texts ==> TextOk(env, vault, e))
      && (forall e :: e in tokens ==> TokensOk(env, e))
      && (forall e :: e in corpora ==> CorpusOk(env, vault, e))
      && Keyed(vault) && |texts| <= textLimit && |tokens| <= textLimit && |corpora| <= corpusLimit
    }

    /** The same, but for the texts of some rows and for the corpora. */
    ghost predicate ValidOutside(rows: set<Id>)
      reads this
    {
      && (forall e :: e in texts ==> e.0 in rows || TextOk(env, vault, e))
      && (forall e :: e in tokens ==> TokensOk(env, e))
      && Keyed(vault) && |texts| <= textLimit && |tokens| <= textLimit
    }

    method CacheTextPair(id: Id, pair: Texts)
      requires Fresh(env.crypto, vault, id) == Some(pair)
      modifies this`texts
      ensures old(Valid()) ==> Valid()
      ensures texts == Put(old(texts), id, pair, textLimit)
    {
      var next := Pop(texts, id) + [(id, pair)];
      while |next| > textLimit
        invariant Trimmed(next, textLimit) == Put(texts, id, pair, textLimit)
      {
        next := next[1..];
      }
      texts := next;
    }

    method TokensForIndexText(id: Id, text: string) returns (doc: Doc)
      requires Valid()
      modifies this`tokens
      ensures Valid() && doc == env.tokenize(text)
    {
      var cached := Find(tokens, id);
      if cached.Some? && cached.value.0 == text {
        tokens := MovedToEnd(tokens, id);
        return cached.value.1;
      }
      doc := env.tokenize(text);
      tokens := Put(tokens, id, (text, doc), textLimit);
    }

    /** The warm text, or else what decrypting gives; while the caches are true these are one. */
    method TextPairForMeta(id: Id) returns (pair: Option<Texts>)
      modifies this`texts
      ensures old(Valid()) ==> Valid() && pair == Fresh(env.crypto, vault, id)
      ensures pair == Served(env.crypto, vault, old(texts), id)
      ensures pair.Some? && textLimit > 0 ==> Find(texts, id) == pair
    {
      var cached := Find(texts, id);
      if cached.Some? {
        FindInAppend(Pop(texts, id), id, cached.value);
        texts := MovedToEnd(texts, id);
        return cached;
      }
      pair := Fresh(env.crypto, vault, id);
      if pair.Some? {
        if textLimit > 0 { PutIsFound(texts, id, pair.value, textLimit); }
        CacheTextPair(id, pair.value);
      }
    }

    method Bm25Scores(cue: string, ids: seq<Id>, indexTexts: map<Id, string>) returns (scores: seq<real>)
      requires Valid() && AllFresh(env, vault, ids) && IndexTextsOf(env.crypto, vault, ids, indexTexts)
      modifies this`tokens, this`corpora
      ensures Valid()
      ensures ScoresOf(env.log, DocsOf(env, vault, ids), Elements(env.tokenize(cue)), scores)
    {
      var corpus := CorpusFor(ids, indexTexts);
      scores := ScorePrepared(env.log, env.tokenize(cue), corpus, DocsOf(env, vault, ids));
    }

    /** The prepared statistics of a list of rows, from the cache or built and kept. */
    method CorpusFor(ids: seq<Id>, indexTexts: map<Id, string>) returns (corpus: Corpus)
      requires Valid() && AllFresh(env, vault, ids) && IndexTextsOf(env.crypto, vault, ids, indexTexts)
      modifies this`tokens, this`corpora
      ensures Valid() && Describes(corpus, DocsOf(env, vault, ids))
    {
      var cached := Find(corpora, ids);
      if cached.Some? {
        assert CorpusOk(env, vault, (ids, cached.value));
        corpora := MovedToEnd(corpora, ids);
        return cached.value;
      }
      var docs := TokensOf(ids, indexTexts);
      corpus := PrepareCorpus(docs);
      corpora := Put(corpora, ids, corpus, corpusLimit);
    }

    method TokensOf(ids: seq<Id>, indexTexts: map<Id, string>) returns (docs: seq<Doc>)
      requires Valid() && AllFresh(env, vault, ids) && IndexTextsOf(env.crypto, vault, ids, indexTexts)
      modifies this`tokens
      ensures Valid() && docs == DocsOf(env, vault, ids)
    {
      docs := [];
      for i := 0 to |ids|
        invariant Valid() && |docs| == i
        invariant forall k :: 0 <= k < i ==> docs[k] == env.tokenize(Fresh(env.crypto, vault, ids[k]).value.index)
      {
        assert ids[i] in Elements(ids);
        var doc := TokensForIndexText(ids[i], indexTexts[ids[i]]);
        docs := docs + [doc];
      }
    }

    /** The lexical part of a recall over the visible rows. */
    method Score(cue: string, visible: seq<Id>)
      returns (ids: seq<Id>, indexTexts: map<Id, string>, scores: seq<real>)
      requires Valid()
      modifies this`texts, this`tokens, this`corpora
      ensures Valid() && vault == old(vault)
      ensures FreshScores(env, vault, cue, visible, ids, scores) && IndexTextsOf(env.crypto, vault, ids, indexTexts)
    {
      ids, indexTexts := ReadTexts(visible);
      ReadableIsFresh(env, vault, visible);
      scores := Bm25Scores(cue, ids, indexTexts);
    }

    /** The visible rows that can be read, with their index texts. */
    method ReadTexts(visible: seq<Id>) returns (ids: seq<Id>, indexTexts: map<Id, string>)
      requires Valid()
      modifies this`texts
      ensures Valid() && ids == Readable(env, vault, visible) && IndexTextsOf(env.crypto, vault, ids, indexTexts)
    {
      ids, indexTexts := [], map[];
      for i := 0 to |visible|
        invariant Valid() && ids == Readable(env, vault, visible[..i])
        invariant IndexTextsOf(env.crypto, vault, ids, indexTexts)
      {
        ReadableNext(env, vault, visible, i);
        var pair := TextPairForMeta(visible[i]);
        if pair.Some? {
          ids := ids + [visible[i]];
          indexTexts := indexTexts[visible[i] := pair.value.index];
        }
      }
      assert visible[..|visible|] == visible;
    }

    // -- Verbs that change rows ----------------------------------------------------------------

    /** Stores a new row under the subject's key. `commits` is whether the insert transaction
        goes through; an erased subject and a used id always refuse. */
    method Remember(
      id: Id, subject: Subject, content: string, index: Option<string>, indexed: bool, newKey: Bytes, commits: bool)
      returns (stored: bool)
      requires Valid() && env.crypto.Valid()
      modifies this
      ensures Valid()
      ensures stored <==> commits && id !in old(vault.rows) && !Erased(old(vault), subject)
      ensures vault == Remembered(env.crypto, old(vault), id, subject, content, index, newKey, stored)
    {
      if Erased(vault, subject) {
        return false;
      }
      stored := commits && id !in vault.rows;
      RememberedReadsBack(env.crypto, vault, id, subject, content, index, newKey, stored);
      StoreRow(id, subject, content, index, newKey, stored);
      if stored && indexed {
        var text := if index.Some? then index.value else content;
        CacheTextPair(id, Texts(content, text));
        var _ := TokensForIndexText(id, text);
        corpora := [];
      }
    }

    /** Gets or creates the key, then inserts the row unless the transaction refuses it. */
    method StoreRow(id: Id, subject: Subject, content: string, index: Option<string>, newKey: Bytes, stored: bool)
      requires Valid() && !Erased(vault, subject) && (stored ==> id !in vault.rows)
      modifies this`vault
      ensures Valid() && vault == Remembered(env.crypto, old(vault), id, subject, content, index, newKey, stored)
    {
      RememberedGrows(env.crypto, vault, id, subject, content, index, newKey, stored);
      CachesSurvive(
        env, vault, Remembered(env.crypto, vault, id, subject, content, index, newKey, stored), texts, corpora);
      if subject !in vault.keys {
        vault := vault.(keys := vault.keys[subject := Some(newKey)]);
      }
      var key := vault.keys[subject].value;
      assert vault.keys == vault.keys[subject := Some(key)];
      if stored {
        var row := Stored(
          subject, env.crypto.encrypt(content, key), if index.None? then None else Some(env.crypto.encrypt(index.value, key)));
        vault := vault.(rows := vault.rows[id := row]);
      }
    }

    method Purge(id: Id)
      requires Valid()
      modifies this
      ensures Valid() && vault == old(vault).(rows := old(vault.rows) - {id})
      ensures forall e :: e in texts || e in old(texts) ==> (e in texts <==> e in old(texts) && e.0 != id)
      ensures forall e :: e in tokens || e in old(tokens) ==> (e in tokens <==> e in old(tokens) && e.0 != id)
    {
      ShrinkingKeepsOthers(env.crypto, vault, {id}, vault.keys);
      texts := Pop(texts, id);
      tokens := Pop(tokens, id);
      corpora := [];
      vault := vault.(rows := vault.rows - {id});
    }

    /** Hard erasure: the key is shredded, then the purge deletes `gone`, which holds every
        row of the subject and whatever descends from them. It also repairs what an interrupted
        erasure left. */
    method Forget(subject: Subject, gone: seq<Id>)
      requires ValidOutside(Elements(gone))
      requires forall id :: id in vault.rows && vault.rows[id].subject == subject ==> id in gone
      modifies this
      ensures Valid()
      ensures vault == Vault(old(vault.rows) - Elements(gone), old(vault.keys)[subject := None])
      ensures forall e :: e in texts ==> e.0 !in gone
      ensures forall e :: e in tokens ==> e.0 !in gone
    {
      ShrinkingKeepsOthers(env.crypto, vault, Elements(gone), vault.keys[subject := None]);
      vault := Vault(vault.rows - Elements(gone), vault.keys[subject := None]);
      DropWarm(gone);
      corpora := [];
    }

    /** A hard erasure whose purge raises after the shred: the tombstone is stored, and rows and
        caches stay as they were. */
    method ForgetInterrupted(subject: Subject)
      requires Valid()
      modifies this`vault
      ensures vault == Shredded(old(vault), subject) && ValidOutside(SubjectRows(vault, subject))
    {
      ShrinkingKeepsOthers(env.crypto, vault, SubjectRows(vault, subject), vault.keys[subject := None]);
      vault := vault.(keys := vault.keys[subject := None]);
    }

    method DropWarm(gone: seq<Id>)
      modifies this`texts, this`tokens
      ensures |texts| <= |old(texts)| && |tokens| <= |old(tokens)|
      ensures forall e :: e in texts ==> e in old(texts) && e.0 !in gone
      ensures forall e :: e in tokens ==> e in old(tokens) && e.0 !in gone
    {
      for i := 0 to |gone|
        invariant |texts| <= |old(texts)| && |tokens| <= |old(tokens)|
        invariant forall e :: e in texts ==> e in old(texts) && e.0 !in gone[..i]
        invariant forall e :: e in tokens ==> e in old(tokens) && e.0 !in gone[..i]
      {
        texts := Pop(texts, gone[i]);
        tokens := Pop(tokens, gone[i]);
      }
      assert gone[..|gone|] == gone;
    }

    /** Leaving recall drops the warm plaintext; the row itself is untouched. */
    method SetIndexed(id: Id, indexed: bool)
      requires Valid()
      modifies this`texts, this`tokens
      ensures Valid()
      ensures !indexed ==> forall e :: e in texts ==> e.0 != id
      ensures !indexed ==> forall e :: e in tokens ==> e.0 != id
      ensures indexed ==> texts == old(texts) && tokens == old(tokens)
    {
      if !indexed {
        texts := Pop(texts, id);
        tokens := Pop(tokens, id);
      }
    }
  }

  /** What is served for a row: warm text goes before decryption. */
  function Served(crypto: Crypto, v: Vault, texts: seq<(Id, Texts)>, id: Id): Option<Texts> {
    if Find(texts, id).Some? then Find(texts, id) else Fresh(crypto, v, id)
  }

  function Shredded(v: Vault, s: Subject): Vault {
    v.(keys := v.keys[s := None])
  }

  /** After an interrupted erasure a row of the subject is no longer readable, and what is served
      differs from that exactly when its text was warm: then it is the text as before. Other rows
      are served as before. */
  lemma InterruptedErasureServesIff(env: Env, v: Vault, texts: seq<(Id, Texts)>, s: Subject, id: Id)
    requires forall e :: e in texts ==> TextOk(env, v, e)
    ensures var next := Shredded(v, s);
      var ofSubject := id in v.rows && v.rows[id].subject == s;
      && (ofSubject ==> Fresh(env.crypto, next, id).None?)
      && (Served(env.crypto, next, texts, id) != Fresh(env.crypto, next, id) <==> ofSubject && Find(texts, id).Some?)
      && (!ofSubject || Find(texts, id).Some? ==> Served(env.crypto, next, texts, id) == Served(env.crypto, v, texts, id))
  {
    if Find(texts, id).Some? { assert TextOk(env, v, (id, Find(texts, id).value)); }
  }

  /** A client that read a row, and whose erasure of the subject is then interrupted, still serves
      the text that nobody can decrypt any more. */
  method ServeAfterInterruptedErasure(client: Client, id: Id, subject: Subject)
    returns (before: Option<Texts>, pair: Option<Texts>, decrypted: Option<Texts>)
    requires client.Valid() && client.textLimit > 0
    requires id in client.vault.rows && client.vault.rows[id].subject == subject
    modifies client
    ensures before == Fresh(client.env.crypto, old(client.vault), id)
    ensures client.vault == Shredded(old(client.vault), subject)
    ensures pair == before && decrypted == None == Fresh(client.env.crypto, client.vault, id)
  {
    before := client.TextPairForMeta(id);
    InterruptedErasureServesIff(client.env, client.vault, client.texts, subject, id);
    client.ForgetInterrupted(subject);
    pair := client.TextPairForMeta(id);
    decrypted := Fresh(client.env.crypto, client.vault, id);
  }

  predicate Erased(v: Vault, s: Subject) {
    s in v.keys && v.keys[s].None?
  }

  /** The vault after a write: a first key is kept even when the insert is refused. */
  function Remembered(
    crypto: Crypto, v: Vault, id: Id, s: Subject, content: string, index: Option<string>, newKey: Bytes, stored: bool)
    : Vault
  {
    if Erased(v, s) then v
    else
      var key := if s in v.keys then v.keys[s].value else newKey;
      var keys := v.keys[s := Some(key)];
      var row := Stored(
        s, crypto.encrypt(content, key), if index.None? then None else Some(crypto.encrypt(index.value, key)));
      Vault(if stored then v.rows[id := row] else v.rows, keys)
  }

  /** A stored row reads back as what was written, and every older row reads as before. */
  lemma RememberedReadsBack(
    crypto: Crypto, v: Vault, id: Id, s: Subject, content: string, index: Option<string>, newKey: Bytes, stored: bool)
    requires crypto.Valid() && Keyed(v) && (stored ==> id !in v.rows) && !Erased(v, s)
    ensures var next := Remembered(crypto, v, id, s, content, index, newKey, stored);
      && (stored ==> Fresh(crypto, next, id) == Some(Texts(content, if index.Some? then index.value else content)))
      && forall other :: other in v.rows ==> Fresh(crypto, next, other) == Fresh(crypto, v, other)
  {
  }

  lemma RememberedGrows(
    crypto: Crypto, v: Vault, id: Id, s: Subject, content: string, index: Option<string>, newKey: Bytes, stored: bool)
    requires Keyed(v) && (stored ==> id !in v.rows)
    ensures var next := Remembered(crypto, v, id, s, content, index, newKey, stored);
      Keyed(next) && KeepsFresh(crypto, v, next)
  {
    GrowthKeepsFresh(crypto, v, Remembered(crypto, v, id, s, content, index, newKey, stored));
  }

  /** Every row's subject has a key row, live or shredded. */
  predicate Keyed(v: Vault) {
    forall id :: id in v.rows ==> v.rows[id].subject in v.keys
  }

  ghost predicate Grows(v: Vault, next: Vault) {
    && (forall id :: id in v.rows ==> id in next.rows && next.rows[id] == v.rows[id])
    && (forall s :: s in v.keys ==> s in next.keys && next.keys[s] == v.keys[s])
  }

  /** `next` reads every row of `v` the same way. */
  ghost predicate KeepsFresh(crypto: Crypto, v: Vault, next: Vault) {
    forall id :: Fresh(crypto, v, id).Some? ==> Fresh(crypto, next, id) == Fresh(crypto, v, id)
  }

  lemma GrowthKeepsFresh(crypto: Crypto, v: Vault, next: Vault)
    requires Grows(v, next)
    ensures KeepsFresh(crypto, v, next)
  {
  }

  lemma CachesSurvive(env: Env, v: Vault, next: Vault, texts: seq<(Id, Texts)>, corpora: seq<(seq<Id>, Corpus)>)
    requires KeepsFresh(env.crypto, v, next)
    requires forall e :: e in texts ==> TextOk(env, v, e)
    requires forall e :: e in corpora ==> CorpusOk(env, v, e)
    ensures forall e :: e in texts ==> TextOk(env, next, e)
    ensures forall e :: e in corpora ==> CorpusOk(env, next, e)
  {
    forall e | e in corpora ensures CorpusOk(env, next, e) {
      assert DocsOf(env, v, e.0) == DocsOf(env, next, e.0);
    }
  }

  /** Removing rows, and the keys of subjects all of whose rows go, leaves the others readable. */
  lemma ShrinkingKeepsOthers(crypto: Crypto, v: Vault, gone: set<Id>, keys: map<Subject, Option<Bytes>>)
    requires forall id :: id in v.rows && id !in gone ==>
      var s := v.rows[id].subject; (s in v.keys <==> s in keys) && (s in keys ==> keys[s] == v.keys[s])
    ensures forall id :: id !in gone ==> Fresh(crypto, Vault(v.rows - gone, keys), id) == Fresh(crypto, v, id)
  {
  }

  // -- Every run ---------------------------------------------------------------------------------

  datatype Verb =
    | Recall(cue: string, visible: seq<Id>)
    | Write(id: Id, subject: Subject, content: string, index: Option<string>, indexed: bool, newKey: Bytes, commits: bool)
    | PurgeRow(id: Id)
    | Erase(subject: Subject, others: seq<Id>)
    | Retire(id: Id, indexed: bool)

  function AfterVerb(crypto: Crypto, v: Vault, verb: Verb): Vault {
    match verb
    case Recall(_, _) => v
    case Write(id, subject, content, index, indexed, newKey, commits) =>
      Remembered(crypto, v, id, subject, content, index, newKey, commits && id !in v.rows && !Erased(v, subject))
    case PurgeRow(id) => v.(rows := v.rows - {id})
    case Erase(subject, others) =>
      Vault(v.rows - (SubjectRows(v, subject) + Elements(others)), v.keys[subject := None])
    case Retire(_, _) => v
  }

  function SubjectRows(v: Vault, s: Subject): set<Id> {
    set id | id in v.rows && v.rows[id].subject == s
  }

  function VaultAfter(crypto: Crypto, v: Vault, verbs: seq<Verb>): Vault {
    if verbs == [] then v else AfterVerb(crypto, VaultAfter(crypto, v, verbs[..|verbs| - 1]), verbs[|verbs| - 1])
  }

  /** A recall: the vault at that moment, and what was asked. */
  datatype Asked = Asked(vault: Vault, cue: string, visible: seq<Id>)

  datatype Answered = Answered(ids: seq<Id>, scores: seq<real>)

  /** The recalls of a run, in order. */
  function RecallsOf(crypto: Crypto, v: Vault, verbs: seq<Verb>): seq<Asked> {
    if verbs == [] then []
    else
      var before, last := verbs[..|verbs| - 1], verbs[|verbs| - 1];
      RecallsOf(crypto, v, before) +
      if last.Recall? then [Asked(VaultAfter(crypto, v, before), last.cue, last.visible)] else []
  }

  /** One answer for every recall, with the scores fresh at its moment. */
  ghost predicate AllServedFresh(env: Env, asked: seq<Asked>, answered: seq<Answered>) {
    && |answered| == |asked|
    && forall i :: 0 <= i < |asked| ==>
         FreshScores(env, asked[i].vault, asked[i].cue, asked[i].visible, answered[i].ids, answered[i].scores)
  }

  /** A client driven through any sequence of verbs changes the vault as the verbs say and
      answers each recall, in order, with the scores that decrypting and tokenising everything
      anew at that moment would give. */
  method Drive(client: Client, verbs: seq<Verb>) returns (answered: seq<Answered>)
    requires client.Valid() && client.env.crypto.Valid()
    modifies client
    ensures client.Valid()
    ensures client.vault == VaultAfter(client.env.crypto, old(client.vault), verbs)
    ensures AllServedFresh(client.env, RecallsOf(client.env.crypto, old(client.vault), verbs), answered)
  {
    answered := [];
    ghost var start := client.vault;
    for i := 0 to |verbs|
      invariant client.Valid()
      invariant client.vault == VaultAfter(client.env.crypto, start, verbs[..i])
      invariant AllServedFresh(client.env, RecallsOf(client.env.crypto, start, verbs[..i]), answered)
    {
      assert verbs[..i + 1][..i] == verbs[..i];
      if verbs[i].Recall? {
        var ids, _, scores := client.Score(verbs[i].cue, verbs[i].visible);
        answered := answered + [Answered(ids, scores)];
      } else {
        Change(client, verbs[i]);
      }
    }
    assert verbs[..|verbs|] == verbs;
  }

  /** Any verb but a recall. */
  method Change(client: Client, verb: Verb)
    requires client.Valid() && client.env.crypto.Valid() && !verb.Recall?
    modifies client
    ensures client.Valid() && client.vault == AfterVerb(client.env.crypto, old(client.vault), verb)
  {
    match verb
    case Write(id, subject, content, index, indexed, newKey, commits) =>
      var _ := client.Remember(id, subject, content, index, indexed, newKey, commits);
    case PurgeRow(id) => client.Purge(id);
    case Erase(subject, others) =>
      var named := RowsOf(client.vault, subject);
      ElementsOfAppend(named, others);
      assert Elements(named) == SubjectRows(client.vault, subject);
      client.Forget(subject, named + others);
    case Retire(id, indexed) => client.SetIndexed(id, indexed);
  }

  method RowsOf(v: Vault, s: Subject) returns (ids: seq<Id>)
    ensures forall id :: id in ids <==> id in v.rows && v.rows[id].subject == s
  {
    ids := [];
    var todo := v.rows.Keys;
    while todo != {}
      invariant todo <= v.rows.Keys
      invariant forall id :: id in ids <==> id in v.rows.Keys - todo && v.rows[id].subject == s
      decreases todo
    {
      var id :| id in todo;
      todo := todo - {id};
      if v.rows[id].subject == s {
        ids := ids + [id];
      }
    }
  }
}
