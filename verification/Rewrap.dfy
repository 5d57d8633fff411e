/** Rotation of one tenant's key envelopes while other processes create, migrate and erase
    keys: accounting, and convergence of repeated bounded runs. */
module Rewrap {
  import opened Common
  import opened Custody
  import opened Database
  import opened Processes

  type Keys = map<Subject, KeyRow>

  datatype RowOutcome = Raised | AlreadyCurrent | NoMaterial | ErasedKey | Migrated(wasWrapped: bool)

  /** The counters of a running rotation. */
  datatype Tally = Tally(
    scanned: nat, migrated: nat, rawMigrated: nat, rewrapped: nat, already: nat,
    skippedShredded: nat, skippedMissing: nat)
  {
    predicate Balanced() {
      scanned == migrated + already + skippedShredded + skippedMissing && migrated == rewrapped + rawMigrated
    }

    function Count(outcome: RowOutcome): Tally
      requires !outcome.Raised?
    {
      var t := this.(scanned := scanned + 1);
      match outcome
      case AlreadyCurrent => t.(already := already + 1)
      case NoMaterial => t.(skippedMissing := skippedMissing + 1)
      case ErasedKey => t.(skippedShredded := skippedShredded + 1)
      case Migrated(wasWrapped) =>
        if wasWrapped then t.(migrated := migrated + 1, rewrapped := rewrapped + 1)
        else t.(migrated := migrated + 1, rawMigrated := rawMigrated + 1)
    }
  }

  const NO_TALLY := Tally(0, 0, 0, 0, 0, 0, 0)

  datatype Report = Report(tally: Tally, remaining: nat, limitReached: bool) {
    predicate Complete() { remaining == 0 && !limitReached }
  }

  /** A live key that is not yet wrapped under the incoming root. */
  predicate Stale(row: KeyRow, keyId: string) {
    row.Active? && row.envelope.Some? && !(row.envelope.value.Wrapped? && row.envelope.value.keyId == keyId)
  }

  function StaleSet(keys: Keys, keyId: string): (stale: set<Subject>)
    ensures stale <= keys.Keys
  {
    set s | s in keys && Stale(keys[s], keyId)
  }

  /** The table lists its keys in some order, each once. */
  ghost predicate Lists(rows: seq<Subject>, keys: Keys) {
    Distinct(rows) && Elements(rows) == keys.Keys
  }

  /** The keys after other processes created, migrated, rotated or erased some of them; no
      write replaces a tombstone. */
  function WithOthers(keys: Keys, writes: Keys): Keys {
    map s | s in keys.Keys + writes.Keys ::
      if s in keys && (s !in writes || keys[s].Shredded?) then keys[s] else writes[s]
  }

  // -- One run ------------------------------------------------------------------------------

  datatype Rotation = Rotation(
    crypto: Crypto, tenant: Tenant, outgoing: Custodian, incoming: Custodian, max: Option<int>)
  {
    predicate LimitReached(migrated: nat) { max.Some? && migrated >= max.value }
  }

  /** What happens to one listed row, given the row stored now: the rotation step of the process
      model, counted. */
  function RowResult(r: Rotation, s: Subject, listed: KeyRow, stored: KeyRow): (KeyRow, RowOutcome)
    requires r.incoming.Kms?
  {
    var (x, goesOn) := RewrapStep(r.crypto, r.tenant, r.outgoing, r.incoming, s, listed);
    if !goesOn then (stored, Raised)
    else if x.PutKey? then
      if stored.Shredded? then (stored, ErasedKey)
      else (Active(Some(x.envelope)), Migrated(listed.Active? && listed.envelope.Some? && listed.envelope.value.Wrapped?))
    else (stored, if listed.Shredded? then ErasedKey else if listed.envelope.None? then NoMaterial else AlreadyCurrent)
  }

  datatype Done = Done(keys: Keys, tally: Tally, limitReached: bool)

  /** The rest of a run from row `i` on. `others(i)` is what other processes write just before
      row `i`; None is the exception of a key that cannot be unwrapped or wrapped. */
  function RunFrom(
    r: Rotation, rows: seq<Subject>, others: nat -> Keys, listing: Keys, i: nat, keys: Keys, tally: Tally)
    : Option<Done>
    requires r.incoming.Kms? && i <= |rows|
    requires Elements(rows) <= listing.Keys <= keys.Keys
    decreases |rows| - i
  {
    var now := WithOthers(keys, others(i));
    if i == |rows| then Some(Done(now, tally, false))
    else if r.LimitReached(tally.migrated) then Some(Done(WithOthers(now, others(|rows|)), tally, true))
    else
      assert rows[i] in Elements(rows);
      var (row, outcome) := RowResult(r, rows[i], listing[rows[i]], now[rows[i]]);
      if outcome.Raised? then None
      else RunFrom(r, rows, others, listing, i + 1, now[rows[i] := row], tally.Count(outcome))
  }

  function RunOnce(r: Rotation, rows: seq<Subject>, others: nat -> Keys, keys: Keys): Option<Done>
    requires r.incoming.Kms? && Elements(rows) == keys.Keys
  {
    RunFrom(r, rows, others, keys, 0, keys, NO_TALLY)
  }

  function ReportOf(r: Rotation, done: Done): Report
    requires r.incoming.Kms?
  {
    Report(done.tally, |StaleSet(done.keys, r.incoming.keyId)|, done.limitReached)
  }

  class KeyTable {
    var keys: Keys

    constructor (keys: Keys)
      ensures this.keys == keys
    {
      this.keys := keys;
    }

    /** Rewraps the keys listed at the start, in order, while other processes write in between. */
    method RewrapTenantKeys(r: Rotation, rows: seq<Subject>, others: nat -> Keys)
      returns (report: Option<Report>)
      requires r.incoming.Kms? && Elements(rows) == keys.Keys
      modifies this
      ensures match RunOnce(r, rows, others, old(keys))
              case None => report.None?
              case Some(done) => report == Some(ReportOf(r, done)) && keys == done.keys
    {
      var listing := keys;
      var tally := NO_TALLY;
      var limitReached := false;
      for i := 0 to |rows|
        invariant listing.Keys <= keys.Keys && !limitReached
        invariant RunOnce(r, rows, others, listing) == RunFrom(r, rows, others, listing, i, keys, tally)
      {
        keys := WithOthers(keys, others(i));
        if r.max.Some? && tally.migrated >= r.max.value {
          limitReached := true;
          break;
        }
        var s := rows[i];
        assert s in Elements(rows);
        var outcome := RewrapOne(r, s, listing[s]);
        if outcome.Raised? {
          return None;
        }
        tally := tally.Count(outcome);
      }
      keys := WithOthers(keys, others(|rows|));
      var remaining := RemainingCount(r.incoming.keyId);
      return Some(Report(tally, remaining, limitReached));
    }

    /** One listed row: skipped, found current, or rewrapped unless it was erased since. */
    method RewrapOne(r: Rotation, s: Subject, listed: KeyRow) returns (outcome: RowOutcome)
      requires r.incoming.Kms? && s in keys
      modifies this
      ensures outcome == RowResult(r, s, listed, old(keys)[s]).1
      ensures keys == old(keys)[s := RowResult(r, s, listed, old(keys)[s]).0]
    {
      assert keys[s := keys[s]] == keys;
      if listed.Shredded? {
        return ErasedKey;
      }
      if listed.envelope.None? {
        return NoMaterial;
      }
      var e := listed.envelope.value;
      if e.Wrapped? && e.keyId == r.incoming.keyId {
        var current := Unwrap(r.crypto, r.incoming, r.tenant, s, e);
        return if current.None? then Raised else AlreadyCurrent;
      }
      var key := Unwrap(r.crypto, r.outgoing, r.tenant, s, e);
      var next := if key.None? then None else Wrap(r.crypto, r.incoming, r.tenant, s, key.value);
      if next.None? {
        return Raised;
      }
      if keys[s].Shredded? {
        return ErasedKey;
      }
      keys := keys[s := Active(next)];
      return Migrated(e.Wrapped?);
    }

    /** The live keys that are not wrapped under the key id, counted over the whole table. */
    method RemainingCount(keyId: string) returns (remaining: nat)
      ensures remaining == |StaleSet(keys, keyId)|
    {
      remaining := 0;
      var todo := keys.Keys;
      while todo != {}
        invariant todo <= keys.Keys
        invariant remaining == |StaleSet(keys, keyId) - todo|
        decreases todo
      {
        var s :| s in todo;
        ghost var counted := StaleSet(keys, keyId) - todo;
        todo := todo - {s};
        if Stale(keys[s], keyId) {
          remaining := remaining + 1;
          assert StaleSet(keys, keyId) - todo == counted + {s};
        } else {
          assert StaleSet(keys, keyId) - todo == counted;
        }
      }
      assert StaleSet(keys, keyId) - {} == StaleSet(keys, keyId);
    }
  }

  // -- Accounting ---------------------------------------------------------------------------

  /** What the counters of a finished run say, whatever others wrote meanwhile. */
  predicate Accounted(r: Rotation, rows: nat, keys: Keys, done: Done) {
    && done.tally.Balanced() && done.tally.scanned <= rows
    && (if done.limitReached then r.LimitReached(done.tally.migrated) else done.tally.scanned == rows)
    && (r.max.Some? && r.max.value >= 0 ==> done.tally.migrated <= r.max.value)
    && keys.Keys <= done.keys.Keys
    && (forall s :: s in keys && keys[s].Shredded? ==> done.keys[s].Shredded?)
  }

  lemma {:induction false} AccountsFrom(
    r: Rotation, rows: seq<Subject>, others: nat -> Keys, listing: Keys, i: nat, keys: Keys, tally: Tally)
    requires r.incoming.Kms? && i <= |rows|
    requires Elements(rows) <= listing.Keys <= keys.Keys
    requires tally.Balanced() && tally.scanned == i
    requires r.max.Some? && r.max.value >= 0 ==> tally.migrated <= r.max.value
    ensures var done := RunFrom(r, rows, others, listing, i, keys, tally);
      done.Some? ==> Accounted(r, |rows|, keys, done.value)
    decreases |rows| - i
  {
    if i < |rows| && !r.LimitReached(tally.migrated) {
      assert rows[i] in Elements(rows);
      var now := WithOthers(keys, others(i));
      var (row, outcome) := RowResult(r, rows[i], listing[rows[i]], now[rows[i]]);
      if !outcome.Raised? {
        AccountsFrom(r, rows, others, listing, i + 1, now[rows[i] := row], tally.Count(outcome));
      }
    }
  }

  /** Every row a run reaches is counted exactly once, the limit on updates is respected, and
      tombstones stay, whatever other processes write while it runs. */
  lemma RunAccounts(r: Rotation, rows: seq<Subject>, others: nat -> Keys, keys: Keys)
    requires r.incoming.Kms? && Elements(rows) == keys.Keys
    ensures var done := RunOnce(r, rows, others, keys);
      done.Some? ==> Accounted(r, |rows|, keys, done.value)
  {
    AccountsFrom(r, rows, others, keys, 0, keys, NO_TALLY);
  }

  /** What a listed row is to a rotation. */
  datatype ListedAs = AsTombstone | AsMissing | AsCurrent | AsWrapped | AsRaw

  function Listed(row: KeyRow, keyId: string): ListedAs {
    if row.Shredded? then AsTombstone
    else if row.envelope.None? then AsMissing
    else if row.envelope.value.Raw? then AsRaw
    else if row.envelope.value.keyId == keyId then AsCurrent else AsWrapped
  }

  /** How many of the first `n` listed rows are of a kind. */
  function CountListed(rows: seq<Subject>, listing: Keys, keyId: string, kind: ListedAs, n: nat): nat
    requires n <= |rows|
  {
    if n == 0 then 0
    else
      CountListed(rows, listing, keyId, kind, n - 1) +
      if rows[n - 1] in listing && Listed(listing[rows[n - 1]], keyId) == kind then 1 else 0
  }

  /** The counters against the listing: rows found current or without material are exactly those
      listed so; rewrapped are at most the rows wrapped under another root, raw migrations at most the
      raw ones; the rest of these, and the tombstones, were skipped as erased. */
  ghost predicate Tallied(rows: seq<Subject>, listing: Keys, keyId: string, t: Tally) {
    && t.scanned <= |rows|
    && t.already == CountListed(rows, listing, keyId, AsCurrent, t.scanned)
    && t.skippedMissing == CountListed(rows, listing, keyId, AsMissing, t.scanned)
    && t.rewrapped <= CountListed(rows, listing, keyId, AsWrapped, t.scanned)
    && t.rawMigrated <= CountListed(rows, listing, keyId, AsRaw, t.scanned)
    && t.skippedShredded ==
         CountListed(rows, listing, keyId, AsTombstone, t.scanned)
         + (CountListed(rows, listing, keyId, AsWrapped, t.scanned) - t.rewrapped)
         + (CountListed(rows, listing, keyId, AsRaw, t.scanned) - t.rawMigrated)
  }

  lemma {:induction false} TalliesFrom(
    r: Rotation, rows: seq<Subject>, others: nat -> Keys, listing: Keys, i: nat, keys: Keys, tally: Tally)
    requires r.incoming.Kms? && i <= |rows| && Elements(rows) <= listing.Keys <= keys.Keys
    requires Tallied(rows, listing, r.incoming.keyId, tally) && tally.scanned == i
    ensures var done := RunFrom(r, rows, others, listing, i, keys, tally);
      done.Some? ==> Tallied(rows, listing, r.incoming.keyId, done.value.tally)
    decreases |rows| - i
  {
    if i < |rows| && !r.LimitReached(tally.migrated) {
      assert rows[i] in Elements(rows);
      var now := WithOthers(keys, others(i));
      var (row, outcome) := RowResult(r, rows[i], listing[rows[i]], now[rows[i]]);
      if !outcome.Raised? {
        TalliesFrom(r, rows, others, listing, i + 1, now[rows[i] := row], tally.Count(outcome));
      }
    }
  }

  /** In every run, whatever others write, the counters say of the listed rows what became of them. */
  lemma RunTallies(r: Rotation, rows: seq<Subject>, others: nat -> Keys, keys: Keys)
    requires r.incoming.Kms? && Elements(rows) == keys.Keys
    ensures var done := RunOnce(r, rows, others, keys);
      done.Some? ==> Tallied(rows, keys, r.incoming.keyId, done.value.tally)
  {
    TalliesFrom(r, rows, others, keys, 0, keys, NO_TALLY);
  }

  /** A report that says complete tells the truth: every live key is wrapped under the incoming key id. */
  lemma CompleteMeansCurrent(r: Rotation, done: Done)
    requires r.incoming.Kms? && ReportOf(r, done).Complete()
    ensures forall s :: s in done.keys && done.keys[s].Active? && done.keys[s].envelope.Some? ==>
      done.keys[s].envelope.value.Wrapped? && done.keys[s].envelope.value.keyId == r.incoming.keyId
  {
    forall s | s in done.keys ensures !Stale(done.keys[s], r.incoming.keyId) {
      assert s !in StaleSet(done.keys, r.incoming.keyId);
    }
  }

  // -- Convergence ----------------------------------------------------------------------------

  /** A rotation does not raise at this row. */
  predicate Unwraps(r: Rotation, s: Subject, row: KeyRow)
    requires r.incoming.Kms?
  {
    row.Shredded? || row.envelope.None? ||
    (if Stale(row, r.incoming.keyId) then
       var key := Unwrap(r.crypto, r.outgoing, r.tenant, s, row.envelope.value);
       key.Some? && Wrappable(key.value)
     else Unwrap(r.crypto, r.incoming, r.tenant, s, row.envelope.value).Some?)
  }

  ghost predicate AllUnwrap(r: Rotation, keys: Keys)
    requires r.incoming.Kms?
  {
    forall s :: s in keys ==> Unwraps(r, s, keys[s])
  }

  /** Other processes may do anything but add a key under an old root: erase, migrate or rotate
      any key and create new ones under the incoming root, all of which it opens. */
  ghost predicate NoOldRoot(r: Rotation, writes: Keys)
    requires r.incoming.Kms?
  {
    AllUnwrap(r, writes) && StaleSet(writes, r.incoming.keyId) == {}
  }

  lemma OthersAddNothingStale(r: Rotation, keys: Keys, writes: Keys)
    requires r.incoming.Kms? && AllUnwrap(r, keys) && NoOldRoot(r, writes)
    ensures var now := WithOthers(keys, writes);
      AllUnwrap(r, now) && StaleSet(now, r.incoming.keyId) <= StaleSet(keys, r.incoming.keyId)
  {
    var now := WithOthers(keys, writes);
    forall s | s in now ensures Unwraps(r, s, now[s]) && (Stale(now[s], r.incoming.keyId) ==> s in keys && now[s] == keys[s]) {
      assert s in writes ==> s !in StaleSet(writes, r.incoming.keyId);
    }
  }

  /** The stale keys of a listing among its rows from `i` on. */
  function Pending(r: Rotation, rows: seq<Subject>, listing: Keys, i: nat): set<Subject>
    requires r.incoming.Kms? && i <= |rows|
  {
    set k | i <= k < |rows| && rows[k] in listing && Stale(listing[rows[k]], r.incoming.keyId) :: rows[k]
  }

  lemma PendingNext(r: Rotation, rows: seq<Subject>, listing: Keys, i: nat)
    requires r.incoming.Kms? && Lists(rows, listing) && i < |rows|
    ensures rows[i] in listing && Pending(r, rows, listing, i + 1) == Pending(r, rows, listing, i) - {rows[i]}
    ensures rows[i] in Pending(r, rows, listing, i) <==> Stale(listing[rows[i]], r.incoming.keyId)
  {
    assert rows[i] in Elements(rows);
  }

  lemma AllArePending(r: Rotation, rows: seq<Subject>, listing: Keys)
    requires r.incoming.Kms? && Lists(rows, listing)
    ensures Pending(r, rows, listing, 0) == StaleSet(listing, r.incoming.keyId)
  {
    forall s | s in listing ensures exists k :: 0 <= k < |rows| && rows[k] == s { assert s in Elements(rows); }
  }

  /** A run before row `i`: what is stale now was listed as stale and is still to come. */
  ghost predicate Midway(r: Rotation, rows: seq<Subject>, listing: Keys, i: nat, keys: Keys)
    requires r.incoming.Kms?
  {
    && i <= |rows| && Lists(rows, listing) && listing.Keys <= keys.Keys
    && AllUnwrap(r, listing) && AllUnwrap(r, keys)
    && StaleSet(keys, r.incoming.keyId) <= Pending(r, rows, listing, i)
  }

  /** One row: whatever became of it since it was listed, it is not stale afterwards, and it is
      counted as migrated only if it was listed as stale. */
  lemma RowIsCurrent(r: Rotation, s: Subject, listed: KeyRow, stored: KeyRow)
    requires r.crypto.Valid() && r.incoming.Kms? && Unwraps(r, s, listed) && Unwraps(r, s, stored)
    requires Stale(stored, r.incoming.keyId) ==> Stale(listed, r.incoming.keyId)
    ensures var (next, outcome) := RowResult(r, s, listed, stored);
      && !outcome.Raised? && !Stale(next, r.incoming.keyId) && Unwraps(r, s, next)
      && (outcome.Migrated? ==> Stale(listed, r.incoming.keyId))
  {
  }

  /** From before row `i` to before row `i + 1`, the writes of others included. */
  lemma RowStep(r: Rotation, rows: seq<Subject>, listing: Keys, i: nat, keys: Keys, writes: Keys)
    requires r.crypto.Valid() && r.incoming.Kms?
    requires Midway(r, rows, listing, i, keys) && NoOldRoot(r, writes) && i < |rows|
    ensures rows[i] in listing
    ensures var now := WithOthers(keys, writes);
      var (row, outcome) := RowResult(r, rows[i], listing[rows[i]], now[rows[i]]);
      && !outcome.Raised? && Midway(r, rows, listing, i + 1, now[rows[i] := row])
      && |Pending(r, rows, listing, i + 1)| + (if outcome.Migrated? then 1 else 0) <= |Pending(r, rows, listing, i)|
  {
    OthersAddNothingStale(r, keys, writes);
    PendingNext(r, rows, listing, i);
    var now, s := WithOthers(keys, writes), rows[i];
    assert Stale(now[s], r.incoming.keyId) ==> s in StaleSet(now, r.incoming.keyId);
    RowIsCurrent(r, s, listing[s], now[s]);
    var next := now[s := RowResult(r, s, listing[s], now[s]).0];
    assert StaleSet(next, r.incoming.keyId) <= StaleSet(now, r.incoming.keyId) - {s};
    SmallerSet(Pending(r, rows, listing, i + 1), Pending(r, rows, listing, i));
  }

  /** What a finished run says of the rows still to come at row `i`: whatever it counted as
      migrated is no longer stale, and unless the limit was reached nothing is. */
  ghost predicate Progressed(r: Rotation, pending: nat, keys: Keys, tally: Tally, done: Option<Done>)
    requires r.incoming.Kms?
  {
    && done.Some? && keys.Keys <= done.value.keys.Keys && AllUnwrap(r, done.value.keys)
    && |StaleSet(done.value.keys, r.incoming.keyId)| + done.value.tally.migrated <= pending + tally.migrated
    && (if done.value.limitReached then r.LimitReached(done.value.tally.migrated)
        else StaleSet(done.value.keys, r.incoming.keyId) == {})
  }

  lemma {:induction false} RunProgress(
    r: Rotation, rows: seq<Subject>, others: nat -> Keys, listing: Keys, i: nat, keys: Keys, tally: Tally)
    requires r.crypto.Valid() && r.incoming.Kms?
    requires Midway(r, rows, listing, i, keys) && forall k :: NoOldRoot(r, others(k))
    ensures Progressed(r, |Pending(r, rows, listing, i)|, keys, tally, RunFrom(r, rows, others, listing, i, keys, tally))
    decreases |rows| - i
  {
    var now := WithOthers(keys, others(i));
    if i == |rows| || r.LimitReached(tally.migrated) {
      OthersAddNothingStale(r, keys, others(i));
      OthersAddNothingStale(r, now, others(|rows|));
      var end := if i == |rows| then now else WithOthers(now, others(|rows|));
      SmallerSet(StaleSet(end, r.incoming.keyId), Pending(r, rows, listing, i));
    } else {
      RowStep(r, rows, listing, i, keys, others(i));
      var (row, outcome) := RowResult(r, rows[i], listing[rows[i]], now[rows[i]]);
      var next := tally.Count(outcome);
      assert next.migrated == tally.migrated + (if outcome.Migrated? then 1 else 0);
      RunProgress(r, rows, others, listing, i + 1, now[rows[i] := row], next);
    }
  }

  /** One run of at least one update, whatever others do short of adding keys under an old root:
      it does not raise, every update it counts leaves one stale key less than were listed, and
      it leaves none, or stops at the limit with fewer; nothing it leaves fails to unwrap. */
  lemma RunShrinks(r: Rotation, rows: seq<Subject>, others: nat -> Keys, keys: Keys)
    requires r.crypto.Valid() && r.incoming.Kms?
    requires Lists(rows, keys) && AllUnwrap(r, keys) && forall k :: NoOldRoot(r, others(k))
    requires r.max.None? || r.max.value >= 1
    ensures var done := RunOnce(r, rows, others, keys);
      var stale := |StaleSet(keys, r.incoming.keyId)|;
      && done.Some? && AllUnwrap(r, done.value.keys)
      && |StaleSet(done.value.keys, r.incoming.keyId)| + done.value.tally.migrated <= stale
      && (done.value.limitReached ==> done.value.tally.migrated >= 1)
      && (!done.value.limitReached ==> StaleSet(done.value.keys, r.incoming.keyId) == {})
  {
    AllArePending(r, rows, keys);
    RunProgress(r, rows, others, keys, 0, keys, NO_TALLY);
  }

  /** One of several runs: what others write before it starts, the listing it works through,
      and what others write between its rows. */
  datatype Round = Round(before: Keys, rows: seq<Subject>, others: nat -> Keys)

  ghost predicate RoundOk(r: Rotation, keys: Keys, round: Round)
    requires r.incoming.Kms?
  {
    && NoOldRoot(r, round.before) && (forall k :: NoOldRoot(r, round.others(k)))
    && Lists(round.rows, WithOthers(keys, round.before))
  }

  /** Run after run on one table; each works through the table's own listing. */
  ghost predicate Rounds(r: Rotation, keys: Keys, rounds: seq<Round>)
    requires r.incoming.Kms?
    decreases |rounds|
  {
    rounds == [] ||
    (RoundOk(r, keys, rounds[0])
     && var done := RunOnce(r, rounds[0].rows, rounds[0].others, WithOthers(keys, rounds[0].before));
        done.Some? ==> Rounds(r, done.value.keys, rounds[1..]))
  }

  /** What the last run ends in; None when some run raised. */
  ghost function LastRun(r: Rotation, keys: Keys, rounds: seq<Round>): Option<Done>
    requires r.incoming.Kms? && rounds != [] && Rounds(r, keys, rounds)
    decreases |rounds|
  {
    var done := RunOnce(r, rounds[0].rows, rounds[0].others, WithOthers(keys, rounds[0].before));
    if done.None? || |rounds| == 1 then done else LastRun(r, done.value.keys, rounds[1..])
  }

  /** With no new old-root keys, repeated runs of any size complete, whatever other processes
      erase, migrate, rotate or create meanwhile: with one run more than there were stale keys,
      the last one reports complete. */
  lemma {:induction false} RunsConverge(r: Rotation, keys: Keys, rounds: seq<Round>)
    requires r.crypto.Valid() && r.incoming.Kms? && AllUnwrap(r, keys) && Rounds(r, keys, rounds)
    requires r.max.None? || r.max.value >= 1
    requires |rounds| > |StaleSet(keys, r.incoming.keyId)|
    ensures var last := LastRun(r, keys, rounds);
      last.Some? && ReportOf(r, last.value).Complete()
    decreases |rounds|
  {
    var now := WithOthers(keys, rounds[0].before);
    OthersAddNothingStale(r, keys, rounds[0].before);
    SmallerSet(StaleSet(now, r.incoming.keyId), StaleSet(keys, r.incoming.keyId));
    RunShrinks(r, rounds[0].rows, rounds[0].others, now);
    var done := RunOnce(r, rounds[0].rows, rounds[0].others, now).value;
    if |rounds| > 1 { RunsConverge(r, done.keys, rounds[1..]); }
  }
}
