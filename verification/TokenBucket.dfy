/**
  The token-bucket rate-limit script: one hash per key holding the tokens left and
  the time they were counted. Time and tokens are exact reals; the clock is in seconds.
 */
module TokenBucket {
  /** What the script derives from its arguments before it looks at the key. */
  datatype Bucket = Bucket(capacity: real, rate: real, ttl: int) {
    ghost predicate Valid() {
      rate > 0.0 && (ttl as real - 0.001) * rate >= capacity && ttl >= 1
    }
  }

  datatype Key = Absent | Present(tokens: real, stamp: real, expireAt: real)

  datatype Reply = Reply(allowed: bool, remaining: int, retryAfter: int)

  function Ceil(x: real): int { -((-x).Floor) }

  function Min(a: real, b: real): real { if a <= b then a else b }

  function Max(a: real, b: real): real { if a >= b then a else b }

  lemma RatePositive(limit: int, window: int)
    requires limit > 0 && window >= 1
    ensures limit as real / window as real > 0.0
  {
  }

  lemma LivesLongEnough(capacity: real, rate: real, ttl: int)
    requires rate > 0.0 && ttl == (if Ceil(capacity / rate) >= 1 then Ceil(capacity / rate) else 1) * 2 + 1
    ensures (ttl as real - 0.001) * rate >= capacity && ttl >= 1
  {
    QuotientTimes(capacity, rate);
    MulMonotone(capacity / rate, ttl as real - 0.001, rate);
  }

  /** ARGV limit, windowSeconds and burstBalance; the caller never runs the script with limit <= 0. */
  function ScriptBucket(limit: int, window: int, burst: int): (b: Bucket)
    requires limit > 0
    ensures b.Valid() && b.capacity == (limit + burst) as real
    ensures b.rate * (if window >= 1 then window else 1) as real == limit as real
  {
    var capacity := (limit + burst) as real;
    var rate := limit as real / (if window >= 1 then window else 1) as real;
    var fill := Ceil(capacity / rate);
    var ttl := (if fill >= 1 then fill else 1) * 2 + 1;
    RatePositive(limit, if window >= 1 then window else 1);
    LivesLongEnough(capacity, rate, ttl);
    QuotientTimes(limit as real, (if window >= 1 then window else 1) as real);
    Bucket(capacity, rate, ttl)
  }

  /** A key is kept for twice the least whole number of seconds in which it refills, one at least, and a second more. */
  lemma TtlIs(limit: int, window: int, burst: int)
    requires limit > 0
    ensures
      var b := ScriptBucket(limit, window, burst);
      var fill := (b.ttl - 1) / 2;
      && b.ttl == 2 * fill + 1 && fill >= 1 && fill as real * b.rate >= b.capacity
      && (fill > 1 ==> (fill - 1) as real * b.rate < b.capacity)
  {
    var b := ScriptBucket(limit, window, burst);
    var fill := Ceil(b.capacity / b.rate);
    FillIs(b.capacity, b.rate, if fill >= 1 then fill else 1);
  }

  lemma FillIs(capacity: real, rate: real, fill: int)
    requires rate > 0.0 && fill == if Ceil(capacity / rate) >= 1 then Ceil(capacity / rate) else 1
    ensures fill as real * rate >= capacity && (fill > 1 ==> (fill - 1) as real * rate < capacity)
  {
    QuotientTimes(capacity, rate);
    MulMonotone(capacity / rate, fill as real, rate);
    if fill > 1 {
      ShorterWait(capacity, rate, fill, (fill - 1) as real);
    }
  }

  /** Redis keeps expiry instants in whole milliseconds of its own clock. */
  function FloorMillis(t: real): (m: real)
    ensures t - 0.001 <= m <= t
  {
    var n := (t * 1000.0).Floor as real;
    assert n <= t * 1000.0 < n + 1.0;
    n / 1000.0
  }

  /** The tokens a call at time t finds, after the refill and before it takes one. */
  function Level(k: Key, t: real, b: Bucket): real {
    match k
    case Absent => b.capacity
    case Present(tokens, stamp, _) => Min(b.capacity, tokens + Max(0.0, t - stamp) * b.rate)
  }

  function Admits(k: Key, now: real, b: Bucket): bool {
    Level(k, now, b) >= 1.0
  }

  function Take(k: Key, now: real, b: Bucket): Key {
    var found := Level(k, now, b);
    Present(if found >= 1.0 then found - 1.0 else found, now, FloorMillis(now) + b.ttl as real)
  }

  function Answer(found: real, rate: real): Reply
    requires rate != 0.0
  {
    if found >= 1.0 then Reply(true, (found - 1.0).Floor, 0)
    else
      var wait := Ceil((1.0 - found) / rate);
      Reply(false, found.Floor, if wait >= 1 then wait else 1)
  }

  function Step(k: Key, now: real, b: Bucket): (Key, Reply)
    requires b.rate != 0.0
  {
    (Take(k, now, b), Answer(Level(k, now, b), b.rate))
  }

  /** The hash the script reads and overwrites. */
  class RedisHash {
    var present: bool
    var tokensField: real
    var tsField: real
    var expireAt: real

    constructor ()
      ensures State() == Absent
    {
      present, tokensField, tsField, expireAt := false, 0.0, 0.0, 0.0;
    }

    ghost function State(): Key
      reads this
    {
      if present then Present(tokensField, tsField, expireAt) else Absent
    }

    /** The server drops an expired key; it may do so late, never early. */
    method Vanish(now: real)
      requires present ==> now >= expireAt
      modifies this
      ensures State() == Absent
    {
      present := false;
    }

    /** A missing key means a full bucket stamped now. */
    method Refill(now: real, ghost b: Bucket, capacity: real, rate: real) returns (tokens: real)
      requires capacity == b.capacity && rate == b.rate
      ensures tokens == Level(State(), now, b)
    {
      var stamp := now;
      tokens := capacity;
      if present {
        tokens, stamp := tokensField, tsField;
      }
      tokens := Min(capacity, tokens + Max(0.0, now - stamp) * rate);
    }

    method RetryAfter(tokens: real, rate: real) returns (retry: int)
      requires rate > 0.0
      ensures tokens < 1.0 ==> Answer(tokens, rate) == Reply(false, tokens.Floor, retry)
    {
      retry := Ceil((1.0 - tokens) / rate);
      retry := if retry >= 1 then retry else 1;
    }

    /** The script. */
    method TryAcquire(now: real, limit: int, window: int, burst: int) returns (r: Reply)
      requires limit > 0
      modifies this
      ensures (State(), r) == Step(old(State()), now, ScriptBucket(limit, window, burst))
    {
      ghost var b := ScriptBucket(limit, window, burst);
      var capacity := (limit + burst) as real;
      var rate := limit as real / (if window >= 1 then window else 1) as real;
      var tokens := Refill(now, b, capacity, rate);
      var allowed := 0;
      if tokens >= 1.0 {
        tokens := tokens - 1.0;
        allowed := 1;
      }
      present, tokensField, tsField := true, tokens, now;
      var fill := Ceil(capacity / rate);
      expireAt := FloorMillis(now) + ((if fill >= 1 then fill else 1) * 2 + 1) as real;
      var retry := 0;
      if allowed == 0 && rate > 0.0 {
        retry := RetryAfter(tokens, rate);
      }
      r := Reply(allowed == 1, tokens.Floor, retry);
    }
  }

  // ----- runs -----

  datatype Event = Call(now: real) | Vanish(now: real)

  function After(k: Key, e: Event, b: Bucket): Key {
    if e.Call? then Take(k, e.now, b) else Absent
  }

  predicate Takes(k: Key, e: Event, b: Bucket) {
    e.Call? && Admits(k, e.now, b)
  }

  /** The clock never runs backwards and a key never vanishes before its expiry. */
  ghost predicate Legal(k: Key, last: real, events: seq<Event>, b: Bucket)
    decreases |events|
  {
    events == [] ||
    (&& last <= events[0].now
     && (events[0].Vanish? && k.Present? ==> events[0].now >= k.expireAt)
     && Legal(After(k, events[0], b), events[0].now, events[1..], b))
  }

  function KeyAfter(k: Key, events: seq<Event>, b: Bucket): Key
    decreases |events|
  {
    if events == [] then k else KeyAfter(After(k, events[0], b), events[1..], b)
  }

  function Replies(k: Key, events: seq<Event>, b: Bucket): seq<Reply>
    requires b.rate != 0.0
    decreases |events|
  {
    if events == [] then []
    else (if events[0].Call? then [Step(k, events[0].now, b).1] else [])
         + Replies(After(k, events[0], b), events[1..], b)
  }

  function OnlyCalls(events: seq<Event>): seq<Event> {
    if events == [] then []
    else (if events[0].Call? then [events[0]] else []) + OnlyCalls(events[1..])
  }

  /** How many calls with s <= now <= t the run admits. */
  function AdmittedBetween(k: Key, events: seq<Event>, b: Bucket, s: real, t: real): nat
    decreases |events|
  {
    if events == [] then 0
    else (if Takes(k, events[0], b) && s <= events[0].now <= t then 1 else 0)
         + AdmittedBetween(After(k, events[0], b), events[1..], b, s, t)
  }

  ghost predicate TokensInRange(k: Key, b: Bucket) {
    k.Present? ==> Min(0.0, b.capacity) <= k.tokens <= b.capacity
  }

  ghost predicate WellFormed(k: Key, last: real, b: Bucket) {
    TokensInRange(k, b) && (k.Present? ==> k.stamp <= last && k.stamp - 0.001 <= k.expireAt - b.ttl as real <= k.stamp)
  }

  // ----- arithmetic the solver needs spelled out -----

  lemma MulMonotone(a: real, b: real, r: real)
    requires a <= b && r >= 0.0
    ensures a * r <= b * r
  {
  }

  lemma TimesNonNegative(a: real, r: real)
    requires a >= 0.0 && r >= 0.0
    ensures a * r >= 0.0
  {
  }

  lemma MulSplit(a: real, b: real, r: real)
    ensures (a + b) * r == a * r + b * r
  {
  }

  lemma QuotientTimes(a: real, r: real)
    requires r > 0.0
    ensures a / r * r == a
  {
  }

  /** The refill of a key over d further seconds, as a difference of two levels. */
  lemma LevelLater(k: Key, u: real, v: real, b: Bucket)
    requires b.rate > 0.0 && u <= v && k.Present? && k.stamp <= u
    ensures
      var x, y := (u - k.stamp) * b.rate, (v - u) * b.rate;
      && x >= 0.0 && y >= 0.0
      && Level(k, u, b) == Min(b.capacity, k.tokens + x)
      && Level(k, v, b) == Min(b.capacity, k.tokens + (x + y))
  {
    TimesNonNegative(u - k.stamp, b.rate);
    TimesNonNegative(v - u, b.rate);
    MulSplit(u - k.stamp, v - u, b.rate);
    assert (u - k.stamp) + (v - u) == v - k.stamp;
  }

  /** Later calls find more, but no more than the refill in between. */
  lemma LevelGrows(k: Key, u: real, v: real, b: Bucket)
    requires b.Valid() && u <= v && WellFormed(k, u, b)
    ensures Level(k, u, b) <= Level(k, v, b) <= Level(k, u, b) + (v - u) * b.rate
    ensures Min(0.0, b.capacity) <= Level(k, u, b) <= b.capacity
  {
    var y := (v - u) * b.rate;
    TimesNonNegative(v - u, b.rate);
    if k.Present? {
      var x := (u - k.stamp) * b.rate;
      LevelLater(k, u, v, b);
      MinGrows(b.capacity, k.tokens, x, y);
    }
  }

  lemma MinGrows(capacity: real, tokens: real, x: real, y: real)
    requires x >= 0.0 && y >= 0.0
    ensures Min(capacity, tokens + x) <= Min(capacity, tokens + (x + y)) <= Min(capacity, tokens + x) + y
  {
  }

  // ----- what one event keeps -----

  lemma TakeWellFormed(k: Key, now: real, b: Bucket)
    requires b.Valid() && WellFormed(k, now, b)
    ensures WellFormed(Take(k, now, b), now, b)
  {
    LevelGrows(k, now, now, b);
  }

  lemma Refills(kept: real, elapsed: real, rate: real, capacity: real)
    requires 0.0 <= kept <= elapsed && rate > 0.0 && kept * rate >= capacity
    ensures elapsed * rate >= capacity && elapsed * rate >= 0.0
  {
    MulMonotone(kept, elapsed, rate);
    TimesNonNegative(elapsed, rate);
  }

  /** By its expiry a key has refilled to the brim, so its loss changes nothing. */
  lemma ExpiredIsFull(k: Key, now: real, t: real, b: Bucket)
    requires b.Valid() && k.Present? && WellFormed(k, now, b)
    requires now >= k.expireAt && t >= now
    ensures Level(k, t, b) == b.capacity
  {
    var elapsed := t - k.stamp;
    assert b.ttl as real - 0.001 <= elapsed;
    Refills(b.ttl as real - 0.001, elapsed, b.rate, b.capacity);
    var y := elapsed * b.rate;
    assert y >= b.capacity && y >= 0.0;
    assert Max(0.0, elapsed) == elapsed;
    assert Level(k, t, b) == Min(b.capacity, k.tokens + y);
  }

  /** Stored tokens stay in [min(0, limit + burst), limit + burst] at every point of a run. */
  lemma {:induction false} TokensStayInRange(k: Key, last: real, events: seq<Event>, b: Bucket)
    requires b.Valid() && WellFormed(k, last, b) && Legal(k, last, events, b)
    ensures TokensInRange(KeyAfter(k, events, b), b)
    decreases |events|
  {
    if events != [] {
      if events[0].Call? {
        TakeWellFormed(k, events[0].now, b);
      }
      TokensStayInRange(After(k, events[0], b), events[0].now, events[1..], b);
    }
  }

  lemma ScriptTokensInRange(last: real, events: seq<Event>, limit: int, window: int, burst: int)
    requires limit > 0 && Legal(Absent, last, events, ScriptBucket(limit, window, burst))
    ensures
      var k := KeyAfter(Absent, events, ScriptBucket(limit, window, burst));
      k.Present? ==> Min(0.0, (limit + burst) as real) <= k.tokens <= (limit + burst) as real
  {
    TokensStayInRange(Absent, last, events, ScriptBucket(limit, window, burst));
  }

  // ----- expiry is invisible -----

  /** Two keys no later call can tell apart. */
  ghost predicate SameFrom(k: Key, k': Key, last: real, b: Bucket) {
    forall t :: t >= last ==> Level(k, t, b) == Level(k', t, b)
  }

  lemma {:induction false} SameRepliesFrom(k: Key, k': Key, last: real, events: seq<Event>, b: Bucket)
    requires b.Valid() && WellFormed(k, last, b) && SameFrom(k, k', last, b)
    requires Legal(k, last, events, b)
    ensures Replies(k, events, b) == Replies(k', OnlyCalls(events), b)
    decreases |events|
  {
    if events != [] {
      var now, tail := events[0].now, events[1..];
      match events[0]
      case Call(_) =>
        assert Level(k, now, b) == Level(k', now, b);
        TakeWellFormed(k, now, b);
        SameRepliesFrom(Take(k, now, b), Take(k, now, b), now, tail, b);
        assert OnlyCalls(events)[1..] == OnlyCalls(tail);
        assert Take(k, now, b) == Take(k', now, b);
      case Vanish(_) =>
        forall t | t >= now
          ensures Level(Absent, t, b) == Level(k', t, b)
        {
          assert Level(k, t, b) == Level(k', t, b);
          if k.Present? {
            ExpiredIsFull(k, now, t, b);
          }
        }
        SameRepliesFrom(Absent, k', now, tail, b);
        assert OnlyCalls(events) == OnlyCalls(tail);
    }
  }

  /** A run whose key vanishes at or after its expiry answers like one whose key never does. */
  lemma ExpiryIsInvisible(last: real, events: seq<Event>, limit: int, window: int, burst: int)
    requires limit > 0 && Legal(Absent, last, events, ScriptBucket(limit, window, burst))
    ensures
      var b := ScriptBucket(limit, window, burst);
      Replies(Absent, events, b) == Replies(Absent, OnlyCalls(events), b)
  {
    SameRepliesFrom(Absent, Absent, last, events, ScriptBucket(limit, window, burst));
  }

  // ----- the admission bound -----

  lemma {:induction false} NoneAfter(k: Key, last: real, events: seq<Event>, b: Bucket, s: real, t: real)
    requires Legal(k, last, events, b) && last > t
    ensures AdmittedBetween(k, events, b, s, t) == 0
    decreases |events|
  {
    if events != [] {
      NoneAfter(After(k, events[0], b), events[0].now, events[1..], b, s, t);
    }
  }

  /** What an instant u in [s, t] still allows: the tokens found then plus the refill until t. */
  function Budget(k: Key, u: real, b: Bucket, t: real): real {
    Max(0.0, Level(k, u, b)) + (t - u) * b.rate
  }

  lemma BudgetShrinks(k: Key, u: real, v: real, b: Bucket, t: real)
    requires b.Valid() && u <= v && WellFormed(k, u, b)
    ensures Budget(k, v, b, t) <= Budget(k, u, b, t)
  {
    LevelGrows(k, u, v, b);
    TimesNonNegative(v - u, b.rate);
    MulSplit(v - u, t - v, b.rate);
    assert (v - u) + (t - v) == t - u;
  }

  lemma BudgetDrops(k: Key, k': Key, v: real, b: Bucket, t: real, spent: real)
    requires Max(0.0, Level(k', v, b)) + spent <= Max(0.0, Level(k, v, b))
    ensures Budget(k', v, b, t) + spent <= Budget(k, v, b, t)
  {
  }

  /** At the event's own instant an admission costs exactly one token; later the loss may be refilled. */
  lemma LevelAfterEvent(k: Key, e: Event, v: real, b: Bucket)
    requires b.Valid() && WellFormed(k, e.now, b) && e.now <= v
    requires e.Vanish? && k.Present? ==> e.now >= k.expireAt
    ensures Level(After(k, e, b), v, b) <= Level(k, v, b)
    ensures Takes(k, e, b) && v == e.now ==>
              Level(k, v, b) >= 1.0 && Level(After(k, e, b), v, b) == Level(k, v, b) - 1.0
  {
    match e
    case Vanish(now) =>
      if k.Present? {
        ExpiredIsFull(k, now, v, b);
      }
    case Call(now) =>
      LevelGrows(k, now, v, b);
      LevelLater(Take(k, now, b), now, v, b);
      assert (now - now) * b.rate == 0.0;
      if k.Present? {
        LevelLater(k, now, v, b);
      }
      if v == now {
        assert (v - now) * b.rate == 0.0;
      }
  }

  lemma {:induction false} BudgetBoundsAdmissions(k: Key, last: real, events: seq<Event>, b: Bucket, s: real, t: real)
    requires b.Valid() && WellFormed(k, last, b) && Legal(k, last, events, b)
    requires s <= t && last <= t
    ensures AdmittedBetween(k, events, b, s, t) as real <= Budget(k, Max(last, s), b, t)
    decreases |events|
  {
    var u := Max(last, s);
    BudgetNonNegative(k, u, b, t);
    if events != [] {
      var e, now, tail := events[0], events[0].now, events[1..];
      var k' := After(k, e, b);
      if now > t {
        NoneAfter(k', now, tail, b, s, t);
      } else {
        if e.Call? {
          TakeWellFormed(k, now, b);
        }
        var v := Max(now, s);
        BudgetBoundsAdmissions(k', now, tail, b, s, t);
        BudgetShrinks(k, u, v, b, t);
        BudgetAfterEvent(k, e, v, b, t);
      }
    }
  }

  lemma BudgetNonNegative(k: Key, u: real, b: Bucket, t: real)
    requires b.rate > 0.0 && u <= t
    ensures Budget(k, u, b, t) >= 0.0
  {
    TimesNonNegative(t - u, b.rate);
  }

  lemma BudgetAfterEvent(k: Key, e: Event, v: real, b: Bucket, t: real)
    requires b.Valid() && WellFormed(k, e.now, b) && e.now <= v
    requires e.Vanish? && k.Present? ==> e.now >= k.expireAt
    ensures Budget(After(k, e, b), v, b, t) + (if Takes(k, e, b) && v == e.now then 1.0 else 0.0) <= Budget(k, v, b, t)
  {
    LevelAfterEvent(k, e, v, b);
    BudgetDrops(k, After(k, e, b), v, b, t, if Takes(k, e, b) && v == e.now then 1.0 else 0.0);
  }

  /**
    Over any run, at most max(0, limit + burst) + (t - s) * limit / max(1, window) requests
    are admitted between any two instants s <= t, wherever the key vanished in between.
   */
  lemma AdmissionBound(last: real, events: seq<Event>, limit: int, window: int, burst: int, b: Bucket, s: real, t: real)
    requires limit > 0 && b == ScriptBucket(limit, window, burst) && Legal(Absent, last, events, b) && s <= t
    ensures AdmittedBetween(Absent, events, b, s, t) as real <= Max(0.0, b.capacity) + (t - s) * b.rate
  {
    assert b.Valid();
    BucketBound(last, events, b, s, t);
  }

  lemma BucketBound(last: real, events: seq<Event>, b: Bucket, s: real, t: real)
    requires b.Valid() && Legal(Absent, last, events, b) && s <= t
    ensures AdmittedBetween(Absent, events, b, s, t) as real <= Max(0.0, b.capacity) + (t - s) * b.rate
  {
    if last <= t {
      BudgetBoundsAdmissions(Absent, last, events, b, s, t);
      FullBudget(Max(last, s), b, s, t);
    } else {
      NoneAfter(Absent, last, events, b, s, t);
      FullBudget(t, b, s, t);
    }
  }

  lemma FullBudget(u: real, b: Bucket, s: real, t: real)
    requires b.rate > 0.0 && s <= u <= t
    ensures 0.0 <= Budget(Absent, u, b, t) <= Max(0.0, b.capacity) + (t - s) * b.rate
  {
    BudgetNonNegative(Absent, u, b, t);
    MulMonotone(t - u, t - s, b.rate);
  }

  // ----- the tokens left -----

  /** As many calls at one instant, one after another, are all admitted. */
  predicate AllAdmitted(k: Key, now: real, n: nat, b: Bucket)
    decreases n
  {
    n == 0 || (Admits(k, now, b) && AllAdmitted(Take(k, now, b), now, n - 1, b))
  }

  lemma {:induction false} AllAdmittedIff(k: Key, now: real, n: nat, b: Bucket)
    requires k.Present? && k.stamp == now && k.tokens <= b.capacity
    ensures AllAdmitted(k, now, n, b) <==> n == 0 || n <= k.tokens.Floor
    decreases n
  {
    assert Max(0.0, now - k.stamp) * b.rate == 0.0;
    assert Level(k, now, b) == k.tokens;
    if n > 0 && k.tokens >= 1.0 {
      assert (k.tokens - 1.0).Floor == k.tokens.Floor - 1;
      AllAdmittedIff(Take(k, now, b), now, n - 1, b);
    }
  }

  /** A key that is not there admits exactly `limit + burst` calls at one instant. */
  lemma FreshBurst(now: real, n: nat, limit: int, window: int, burst: int)
    requires limit > 0
    ensures AllAdmitted(Absent, now, n, ScriptBucket(limit, window, burst)) <==> n == 0 || n <= limit + burst
  {
    var b := ScriptBucket(limit, window, burst);
    if n > 0 && Admits(Absent, now, b) {
      AllAdmittedIff(Take(Absent, now, b), now, n - 1, b);
    }
  }

  /** At any point of a run a call is told how many more calls at the same instant would all be admitted. */
  lemma RemainingIs(last: real, events: seq<Event>, b: Bucket, now: real, n: nat)
    requires b.Valid() && Legal(Absent, last, events, b)
    requires (if events == [] then last else events[|events| - 1].now) <= now
    ensures
      var (k', r) := Step(KeyAfter(Absent, events, b), now, b);
      && (AllAdmitted(k', now, n, b) <==> n == 0 || n <= r.remaining) && (r.allowed ==> r.retryAfter == 0 <= r.remaining)
  {
    RunWellFormed(Absent, last, events, b);
    var k := KeyAfter(Absent, events, b);
    LevelGrows(k, now, now, b);
    RemainingOfKey(k, now, b, n);
  }

  lemma RemainingOfKey(k: Key, now: real, b: Bucket, n: nat)
    requires b.rate != 0.0 && Level(k, now, b) <= b.capacity
    ensures
      var (k', r) := Step(k, now, b);
      && (AllAdmitted(k', now, n, b) <==> n == 0 || n <= r.remaining) && (r.allowed ==> r.retryAfter == 0 <= r.remaining)
  {
    AllAdmittedIff(Take(k, now, b), now, n, b);
  }

  /** A call leaves the key until its bucket's time to live is over, to the millisecond Redis keeps. */
  lemma KeyLives(last: real, events: seq<Event>, limit: int, window: int, burst: int)
    requires limit > 0 && Legal(Absent, last, events, ScriptBucket(limit, window, burst))
    ensures
      var b := ScriptBucket(limit, window, burst);
      var k := KeyAfter(Absent, events, b);
      k.Present? ==> k.stamp - 0.001 <= k.expireAt - b.ttl as real <= k.stamp
  {
    RunWellFormed(Absent, last, events, ScriptBucket(limit, window, burst));
  }

  lemma {:induction false} RunWellFormed(k: Key, last: real, events: seq<Event>, b: Bucket)
    requires b.Valid() && WellFormed(k, last, b) && Legal(k, last, events, b)
    ensures WellFormed(KeyAfter(k, events, b), if events == [] then last else events[|events| - 1].now, b)
    decreases |events|
  {
    if events != [] {
      if events[0].Call? {
        TakeWellFormed(k, events[0].now, b);
      }
      RunWellFormed(After(k, events[0], b), events[0].now, events[1..], b);
    }
  }

  // ----- the advertised retry time -----

  lemma AnswerWait(found: real, rate: real)
    requires rate > 0.0 && found < 1.0
    ensures !Answer(found, rate).allowed
    ensures Answer(found, rate).retryAfter as real * rate >= 1.0 - found
    ensures Answer(found, rate).retryAfter >= 1
  {
    QuotientTimes(1.0 - found, rate);
    MulMonotone((1.0 - found) / rate, Answer(found, rate).retryAfter as real, rate);
  }

  /**
    After a denial an undisturbed later call is admitted exactly when the bucket can hold
    a token at all and enough time has passed; waiting the advertised seconds is enough,
    and of whole seconds they are the fewest, one at least.
   */
  lemma RetryAfterSuffices(k: Key, now: real, t: real, b: Bucket)
    requires b.Valid() && now <= t && !Admits(k, now, b)
    ensures
      var (k', r) := Step(k, now, b);
      && !r.allowed
      && (Admits(k', t, b) <==> b.capacity >= 1.0 && (t - now) * b.rate >= 1.0 - Level(k, now, b))
      && (b.capacity >= 1.0 && t >= now + r.retryAfter as real ==> Admits(k', t, b))
      && r.retryAfter >= 1 && (r.retryAfter > 1 && t <= now + (r.retryAfter - 1) as real ==> !Admits(k', t, b))
  {
    var (k', r) := Step(k, now, b);
    AnswerWait(Level(k, now, b), b.rate);
    LaterAdmitsIff(k, now, t, b);
    if t >= now + r.retryAfter as real {
      WaitRefills(1.0 - Level(k, now, b), b.rate, r.retryAfter, t - now);
    }
    if r.retryAfter > 1 && t <= now + (r.retryAfter - 1) as real {
      ShorterWait(1.0 - Level(k, now, b), b.rate, r.retryAfter, t - now);
    }
  }

  lemma LaterAdmitsIff(k: Key, now: real, t: real, b: Bucket)
    requires b.Valid() && now <= t && !Admits(k, now, b)
    ensures Admits(Step(k, now, b).0, t, b) <==> b.capacity >= 1.0 && (t - now) * b.rate >= 1.0 - Level(k, now, b)
  {
    LevelLater(Step(k, now, b).0, now, t, b);
    assert (now - now) * b.rate == 0.0;
  }

  lemma ShorterWait(missing: real, rate: real, seconds: int, waited: real)
    requires rate > 0.0 && seconds == Ceil(missing / rate) && waited <= (seconds - 1) as real
    ensures waited * rate < missing
  {
    assert waited < missing / rate;
    QuotientTimes(missing, rate);
    MulStrict(waited, missing / rate, rate);
  }

  lemma MulStrict(a: real, b: real, r: real)
    requires a < b && r > 0.0
    ensures a * r < b * r
  {
  }

  lemma WaitRefills(missing: real, rate: real, seconds: int, waited: real)
    requires rate > 0.0 && seconds as real * rate >= missing && waited >= seconds as real
    ensures waited * rate >= missing
  {
    MulMonotone(seconds as real, waited, rate);
  }
}
