/** The per-credential sliding-window rate limiter of the recall service. */
module RateLimiter {
  import opened Common

  type Digest = string

  /** The limits of a credential, after configuration has raised them to at least 1. */
  datatype Limit = Limit(requests: nat, window: real) {
    predicate Sane() { requests >= 1 && window >= 1.0 }
  }

  datatype Request = Request(digest: Digest, now: real)

  /** `remaining` and `retryAfter` as the service reports them. */
  datatype Decision = Admitted(remaining: nat) | Refused(retryAfter: int)

  // -- The meaning: a limiter that never forgets ----------------------------------------------

  type Limits = Digest -> Limit

  ghost predicate SaneLimits(limits: Limits) {
    forall d :: limits(d).Sane()
  }

  predicate Expired(hit: real, now: real, window: real) {
    now - hit >= window
  }

  function Recent(admissions: seq<real>, now: real, window: real): seq<real> {
    Filter(admissions, (hit: real) => !Expired(hit, now, window))
  }

  function Ceiling(x: real): int {
    -((-x).Floor)
  }

  function Decide(admissions: seq<real>, now: real, limit: Limit): Decision
    requires limit.Sane()
  {
    var recent := Recent(admissions, now, limit.window);
    if |recent| < limit.requests then Admitted(limit.requests - |recent| - 1)
    else
      var wait := Ceiling(limit.window - (now - recent[0]));
      Refused(if wait >= 1 then wait else 1)
  }

  /** The instants at which a credential was admitted over a whole history of requests. */
  ghost function Admissions(limits: Limits, history: seq<Request>, d: Digest): seq<real>
    requires SaneLimits(limits)
  {
    if history == [] then []
    else
      var before, last := Admissions(limits, history[..|history| - 1], d), history[|history| - 1];
      if last.digest == d && Decide(before, last.now, limits(d)).Admitted? then before + [last.now] else before
  }

  ghost predicate ClockOk(history: seq<Request>) {
    forall i, j :: 0 <= i <= j < |history| ==> history[i].now <= history[j].now
  }

  ghost predicate Sorted(s: seq<real>) {
    forall i, j :: 0 <= i <= j < |s| ==> s[i] <= s[j]
  }

  ghost predicate AllBy(s: seq<real>, now: real) {
    forall i :: 0 <= i < |s| ==> s[i] <= now
  }

  /** Admissions are in order and none is later than the last request. */
  lemma {:induction false} AdmissionsInOrder(limits: Limits, history: seq<Request>, d: Digest, now: real)
    requires SaneLimits(limits) && ClockOk(history)
    requires history != [] ==> history[|history| - 1].now <= now
    ensures Sorted(Admissions(limits, history, d)) && AllBy(Admissions(limits, history, d), now)
  {
    if history != [] {
      AdmissionsInOrder(limits, history[..|history| - 1], d, history[|history| - 1].now);
    }
  }

  function InWindow(start: real, window: real): real -> bool {
    (hit: real) => start <= hit < start + window
  }

  /** In any half-open window of the credential's length, wherever it starts, at most the
      permitted number of requests is admitted. */
  lemma {:induction false} NeverMoreThanTheLimit(limits: Limits, history: seq<Request>, d: Digest, start: real)
    requires SaneLimits(limits) && ClockOk(history)
    ensures |Filter(Admissions(limits, history, d), InWindow(start, limits(d).window))| <= limits(d).requests
  {
    if history != [] {
      var earlier, last := history[..|history| - 1], history[|history| - 1];
      var before, limit := Admissions(limits, earlier, d), limits(d);
      var inside := InWindow(start, limit.window);
      NeverMoreThanTheLimit(limits, earlier, d, start);
      if last.digest == d && Decide(before, last.now, limit).Admitted? {
        FilterAppend(before, [last.now], inside);
        if inside(last.now) {
          FilterNarrower(before, inside, (hit: real) => !Expired(hit, last.now, limit.window));
        }
      }
    }
  }

  /** What counts against a request never exceeds the limit. */
  lemma RecentWithinLimit(limits: Limits, history: seq<Request>, d: Digest, now: real)
    requires SaneLimits(limits) && ClockOk(history)
    requires history != [] ==> history[|history| - 1].now <= now
    ensures |Recent(Admissions(limits, history, d), now, limits(d).window)| <= limits(d).requests
  {
    var admissions, window := Admissions(limits, history, d), limits(d).window;
    AdmissionsInOrder(limits, history, d, now);
    if Recent(admissions, now, window) != [] {
      var first := Recent(admissions, now, window)[0];
      OldestFirst(admissions, now, window);
      NeverMoreThanTheLimit(limits, history, d, first);
      FilterNarrower(admissions, (hit: real) => !Expired(hit, now, window), InWindow(first, window));
    }
  }

  lemma OldestFirst(s: seq<real>, now: real, window: real)
    requires Sorted(s) && AllBy(s, now) && Recent(s, now, window) != []
    ensures forall x :: x in Recent(s, now, window) ==> Recent(s, now, window)[0] <= x <= now
    ensures forall x :: x in s && !Expired(x, now, window) ==> x < Recent(s, now, window)[0] + window
  {
    RecentIsSuffix(s, now, window);
    assert Recent(s, now, window)[0] in Recent(s, now, window);
    assert forall x :: x in s && !Expired(x, now, window) ==> x in Recent(s, now, window);
  }

  /** Dropping expired instants from the front of an ordered list is the same as filtering it. */
  function DropExpired(s: seq<real>, now: real, window: real): seq<real> {
    if s == [] || !Expired(s[0], now, window) then s else DropExpired(s[1..], now, window)
  }

  lemma {:induction false} RecentIsSuffix(s: seq<real>, now: real, window: real)
    requires Sorted(s)
    ensures Recent(s, now, window) == DropExpired(s, now, window)
    ensures Sorted(DropExpired(s, now, window))
  {
    if s != [] {
      if Expired(s[0], now, window) {
        RecentIsSuffix(s[1..], now, window);
      } else {
        FilterAll(s, (hit: real) => !Expired(hit, now, window));
      }
    }
  }

  /** Forgetting what had expired earlier changes nothing later. */
  lemma {:induction false} ForgettingIsHarmless(s: seq<real>, earlier: real, now: real, window: real)
    requires Sorted(s) && earlier <= now
    ensures Recent(DropExpired(s, earlier, window), now, window) == Recent(s, now, window)
  {
    if s != [] && Expired(s[0], earlier, window) {
      ForgettingIsHarmless(s[1..], earlier, now, window);
    }
  }

  /** A refused caller that waits is admitted exactly when it waits at least `retryAfter`
      seconds, provided nothing else was admitted meanwhile; whole seconds, no fewer. */
  lemma RetryAfterIsExact(limits: Limits, history: seq<Request>, d: Digest, now: real, wait: int)
    requires SaneLimits(limits) && ClockOk(history) && wait >= 1
    requires history != [] ==> history[|history| - 1].now <= now
    requires Decide(Admissions(limits, history, d), now, limits(d)).Refused?
    ensures var admissions := Admissions(limits, history, d);
      Decide(admissions, now + wait as real, limits(d)).Admitted? <==>
      wait >= Decide(admissions, now, limits(d)).retryAfter
  {
    var admissions, limit := Admissions(limits, history, d), limits(d);
    AdmissionsInOrder(limits, history, d, now);
    RecentWithinLimit(limits, history, d, now);
    OneMustExpire(admissions, now, wait, limit);
    CeilingIsLeast(limit.window - (now - Recent(admissions, now, limit.window)[0]), wait);
  }

  /** A full window frees a place exactly when its oldest entry has expired. */
  lemma OneMustExpire(s: seq<real>, now: real, wait: int, limit: Limit)
    requires limit.Sane() && Sorted(s) && wait >= 1 && |Recent(s, now, limit.window)| == limit.requests
    ensures |Recent(s, now + wait as real, limit.window)| < limit.requests <==>
      wait as real >= limit.window - (now - Recent(s, now, limit.window)[0])
  {
    var later := now + wait as real;
    var recent := Recent(s, now, limit.window);
    RecentIsSuffix(s, now, limit.window);
    ForgettingIsHarmless(s, now, later, limit.window);
    RecentIsSuffix(recent, later, limit.window);
    DropsOnlyFromFront(recent, later, limit.window);
  }

  lemma DropsOnlyFromFront(s: seq<real>, now: real, window: real)
    requires s != []
    ensures |DropExpired(s, now, window)| < |s| <==> Expired(s[0], now, window)
  {
    if Expired(s[0], now, window) { DropIsNoLonger(s[1..], now, window); }
  }

  lemma {:induction false} DropIsNoLonger(s: seq<real>, now: real, window: real)
    ensures |DropExpired(s, now, window)| <= |s|
  {
    if s != [] { DropIsNoLonger(s[1..], now, window); }
  }

  lemma CeilingIsLeast(x: real, k: int)
    ensures k as real >= x <==> k >= Ceiling(x)
  {
    var f := (-x).Floor;
    assert f as real <= -x < f as real + 1.0;
  }

  /** The reported remainder is exact: at the instant of an admission, just as many more requests
      of the credential are admitted as reported, and then it is refused. */
  lemma RemainingIsExact(admissions: seq<real>, now: real, limit: Limit)
    requires limit.Sane() && Decide(admissions, now, limit).Admitted?
    ensures var left := Decide(admissions, now, limit).remaining;
      if left > 0 then Decide(admissions + [now], now, limit) == Admitted(left - 1)
      else Decide(admissions + [now], now, limit).Refused?
  {
    var live := (hit: real) => !Expired(hit, now, limit.window);
    FilterAppend(admissions, [now], live);
    FilterAll([now], live);
  }

  /** Requests of other credentials, and refused ones, leave a credential's admissions alone. */
  lemma OthersDoNotCount(limits: Limits, history: seq<Request>, r: Request, d: Digest)
    requires SaneLimits(limits)
    requires r.digest != d || Decide(Admissions(limits, history, d), r.now, limits(d)).Refused?
    ensures Admissions(limits, history + [r], d) == Admissions(limits, history, d)
  {
    assert (history + [r])[..|history|] == history;
  }

  // -- The limiter ---------------------------------------------------------------------------

  datatype Bucket = Bucket(hits: seq<real>, window: real)

  type Buckets = map<Digest, Bucket>

  function LastInstant(history: seq<Request>): real {
    if history == [] then 0.0 else history[|history| - 1].now
  }

  /** A credential's bucket holds what has not expired of all it was ever admitted; a
      credential without a bucket has nothing left. */
  ghost predicate Holds(limits: Limits, history: seq<Request>, buckets: Buckets, d: Digest, now: real)
    requires SaneLimits(limits)
  {
    var recent := DropExpired(Admissions(limits, history, d), now, limits(d).window);
    if d in buckets then buckets[d] == Bucket(recent, limits(d).window) && recent != [] else recent == []
  }

  ghost predicate Mirrors(limits: Limits, history: seq<Request>, buckets: Buckets, now: real)
    requires SaneLimits(limits)
  {
    forall d :: Holds(limits, history, buckets, d, now)
  }

  lemma {:induction false} DropTwice(s: seq<real>, earlier: real, now: real, window: real)
    requires s == [] || earlier <= now
    ensures DropExpired(DropExpired(s, earlier, window), now, window) == DropExpired(s, now, window)
  {
    if s != [] && Expired(s[0], earlier, window) { DropTwice(s[1..], earlier, now, window); }
  }

  lemma {:induction false} DropAppend(s: seq<real>, now: real, window: real)
    requires window > 0.0
    ensures DropExpired(s + [now], now, window) == DropExpired(s, now, window) + [now]
  {
    if s != [] {
      assert (s + [now])[1..] == s[1..] + [now];
      DropAppend(s[1..], now, window);
    }
  }

  /** Global eviction brings every bucket up to date. */
  lemma EvictionKeepsMirror(limits: Limits, history: seq<Request>, buckets: Buckets, now: real)
    requires SaneLimits(limits) && Mirrors(limits, history, buckets, LastInstant(history))
    requires history != [] ==> LastInstant(history) <= now
    ensures Mirrors(limits, history, Evicted(buckets, now), now)
  {
    forall d ensures Holds(limits, history, Evicted(buckets, now), d, now) {
      assert Holds(limits, history, buckets, d, LastInstant(history));
      DropTwice(Admissions(limits, history, d), LastInstant(history), now, limits(d).window);
    }
  }

  lemma RequestKeepsMirror(
    limits: Limits, history: seq<Request>, before: Buckets, after: Buckets, r: Request, hits: seq<real>)
    requires SaneLimits(limits) && Mirrors(limits, history, before, r.now)
    requires after == before[r.digest := Bucket(hits, limits(r.digest).window)] && hits != []
    requires var admissions := Admissions(limits, history, r.digest);
      hits == DropExpired(admissions, r.now, limits(r.digest).window) +
              (if Decide(admissions, r.now, limits(r.digest)).Admitted? then [r.now] else [])
    ensures Mirrors(limits, history + [r], after, r.now)
  {
    assert (history + [r])[..|history|] == history;
    DropAppend(Admissions(limits, history, r.digest), r.now, limits(r.digest).window);
    forall d ensures Holds(limits, history + [r], after, d, r.now) {
      assert Holds(limits, history, before, d, r.now);
    }
  }

  class RecallRateLimiter {
    var buckets: Buckets
    ghost const limits: Limits
    ghost var history: seq<Request>

    constructor (ghost limits: Limits)
      requires SaneLimits(limits)
      ensures Valid() && this.limits == limits && history == []
    {
      buckets := map[];
      this.limits := limits;
      history := [];
    }

    /** No bucket is stale or empty: memory is bounded by recent traffic. */
    ghost predicate Valid()
      reads this
    {
      SaneLimits(limits) && ClockOk(history) && Mirrors(limits, history, buckets, LastInstant(history))
    }

    /** The decision is the one a limiter with the full history would make. */
    method Check(d: Digest, limit: Limit, now: real) returns (decision: Decision)
      requires Valid() && limit == limits(d)
      requires history != [] ==> history[|history| - 1].now <= now
      modifies this
      ensures Valid() && history == old(history) + [Request(d, now)]
      ensures decision == Decide(Admissions(limits, old(history), d), now, limit)
    {
      EvictionKeepsMirror(limits, history, buckets, now);
      EvictExpired(now);
      ghost var evicted := buckets;
      var hits := Bucketed(d, limit, now);
      buckets := buckets[d := Bucket(hits, limit.window)];
      if |hits| >= limit.requests {
        var wait := Ceiling(limit.window - (now - hits[0]));
        decision := Refused(if wait >= 1 then wait else 1);
      } else {
        hits := hits + [now];
        buckets := buckets[d := Bucket(hits, limit.window)];
        decision := Admitted(limit.requests - |hits|);
      }
      RequestKeepsMirror(limits, history, evicted, buckets, Request(d, now), hits);
      history := history + [Request(d, now)];
    }

    /** The credential's live hits: all that still count against it. */
    method Bucketed(d: Digest, limit: Limit, now: real) returns (hits: seq<real>)
      requires SaneLimits(limits) && ClockOk(history) && Mirrors(limits, history, buckets, now) && limit == limits(d)
      requires history != [] ==> LastInstant(history) <= now
      ensures hits == Recent(Admissions(limits, history, d), now, limit.window)
      ensures hits == DropExpired(Admissions(limits, history, d), now, limit.window)
    {
      ghost var admissions := Admissions(limits, history, d);
      assert Holds(limits, history, buckets, d, now);
      AdmissionsInOrder(limits, history, d, now);
      RecentIsSuffix(admissions, now, limit.window);
      DropTwice(admissions, now, now, limit.window);
      hits := if d in buckets then buckets[d].hits else [];
      hits := PopExpired(hits, now, limit.window);
    }

    method EvictExpired(now: real)
      modifies this`buckets
      ensures buckets == Evicted(old(buckets), now)
    {
      var todo, expired: set<Digest> := buckets.Keys, {};
      ghost var start := buckets;
      while todo != {}
        invariant todo <= start.Keys && buckets == PoppedExcept(start, todo, now)
        invariant expired == ExpiredExcept(start, todo, now)
        decreases todo
      {
        var d :| d in todo;
        todo := todo - {d};
        var hits := PopExpired(buckets[d].hits, now, buckets[d].window);
        buckets := buckets[d := buckets[d].(hits := hits)];
        if hits == [] {
          expired := expired + {d};
        }
      }
      buckets := buckets - expired;
    }

    method PopExpired(hits: seq<real>, now: real, window: real) returns (left: seq<real>)
      ensures left == DropExpired(hits, now, window)
    {
      left := hits;
      while left != [] && now - left[0] >= window
        invariant DropExpired(left, now, window) == DropExpired(hits, now, window)
      {
        left := left[1..];
      }
    }
  }

  function Popped(b: Bucket, now: real): Bucket {
    b.(hits := DropExpired(b.hits, now, b.window))
  }

  /** The buckets once all but `todo` have been popped, and those found empty by then. */
  function PoppedExcept(start: Buckets, todo: set<Digest>, now: real): Buckets {
    map d | d in start :: if d in todo then start[d] else Popped(start[d], now)
  }

  function ExpiredExcept(start: Buckets, todo: set<Digest>, now: real): set<Digest> {
    set d | d in start && d !in todo && Popped(start[d], now).hits == []
  }

  function Evicted(buckets: Buckets, now: real): Buckets {
    map d | d in buckets && Popped(buckets[d], now).hits != [] :: Popped(buckets[d], now)
  }
}
