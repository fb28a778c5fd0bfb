/**
  The fixed-window rate-limit script: a counter that expires one window after the
  call that created it. Times are the server's milliseconds, the window is in seconds.
 */
module FixedWindow {
  import opened Arithmetic
  import opened AdmissionLog

  datatype Key = Absent | Present(count: int, expireAt: int)

  datatype Reply = Reply(allowed: bool, remaining: int, retryAfter: int)

  function Length(window: int): int { 1000 * window }

  /** TTL: whole seconds left, rounded to the nearest. */
  function Ttl(expireAt: int, now: int): int {
    (expireAt - now + 500) / 1000
  }

  function Incremented(k: Key, now: int, window: int): Key {
    match k
    case Absent => Present(1, now + Length(window))
    case Present(count, expireAt) =>
      Present(count + 1, if count + 1 == 1 then now + Length(window) else expireAt)
  }

  function Step(k: Key, now: int, limit: int, window: int): (Key, Reply) {
    var k' := Incremented(k, now, window);
    var ttl := Ttl(k'.expireAt, now);
    (k', if k'.count <= limit then Reply(true, limit - k'.count, 0)
         else Reply(false, 0, if ttl < 1 then window else ttl))
  }

  /** The counter key and the commands the script issues against it. */
  class RedisCounter {
    var present: bool
    var count: int
    var expireAt: int

    constructor ()
      ensures State() == Absent
    {
      present, count, expireAt := false, 0, 0;
    }

    ghost function State(): Key
      reads this
    {
      if present then Present(count, expireAt) else Absent
    }

    method Vanish(now: int)
      requires present ==> now >= expireAt
      modifies this
      ensures State() == Absent
    {
      present := false;
    }

    /** INCR creates a missing key at zero first. */
    method Incr() returns (current: int)
      modifies this`present, this`count
      ensures present && current == count == if old(present) then old(count) + 1 else 1
    {
      count := if present then count + 1 else 1;
      present := true;
      current := count;
    }

    method TryAcquire(now: int, limit: int, window: int) returns (r: Reply)
      modifies this
      ensures (State(), r) == Step(old(State()), now, limit, window)
    {
      var current := Incr();
      if current == 1 {
        expireAt := now + 1000 * window;
      }
      var ttl := Ttl(expireAt, now);
      if ttl < 1 {
        ttl := window;
      }
      r := if current <= limit then Reply(true, limit - current, 0) else Reply(false, 0, ttl);
    }
  }

  // ----- runs -----

  datatype Event = Call(now: int) | Vanish(now: int)

  function After(k: Key, e: Event, limit: int, window: int): Key {
    if e.Call? then Step(k, e.now, limit, window).0 else Absent
  }

  predicate Takes(k: Key, e: Event, limit: int, window: int) {
    e.Call? && Step(k, e.now, limit, window).1.allowed
  }

  /** The clock never runs backwards and a key never vanishes before its expiry. */
  ghost predicate Legal(k: Key, last: int, events: seq<Event>, limit: int, window: int)
    decreases |events|
  {
    events == [] ||
    (&& last <= events[0].now
     && (events[0].Vanish? && k.Present? ==> events[0].now >= k.expireAt)
     && Legal(After(k, events[0], limit, window), events[0].now, events[1..], limit, window))
  }

  function AdmittedAt(k: Key, events: seq<Event>, limit: int, window: int): seq<int>
    decreases |events|
  {
    if events == [] then []
    else (if Takes(k, events[0], limit, window) then [events[0].now] else [])
         + AdmittedAt(After(k, events[0], limit, window), events[1..], limit, window)
  }

  // ----- the bound -----

  /** The most one interval can hold: `limit` of one key lifetime and all but the first of another. */
  function Most(limit: int): int {
    if limit >= 1 then 2 * limit - 1 else 0
  }

  ghost predicate Bounded(log: seq<int>, limit: int, window: int) {
    forall a, b :: b == a + Length(window) ==> CountIn(log, a, b) <= Most(limit)
  }

  /**
    The admissions of a run split into those of earlier key lifetimes and those of the
    latest one, which began at `start` and whose first admission, if any, came then.
   */
  ghost predicate Tracks(k: Key, earlier: seq<int>, latest: seq<int>, start: int, last: int, limit: int, window: int) {
    && (forall t :: t in earlier ==> t <= start)
    && (forall t :: t in latest ==> start <= t <= last)
    && |latest| <= Max(0, limit)
    && (latest != [] ==> latest[0] == start)
    && CountIn(earlier, start - Length(window), start) <= Max(0, limit - 1)
    && (match k
        case Absent => start + Length(window) <= last
        case Present(count, expireAt) =>
          start <= last && count >= 1 && expireAt == start + Length(window) && |latest| == if count <= limit then count else Max(0, limit))
    && Bounded(earlier + latest, limit, window)
  }

  lemma {:induction false} CountAtMost(log: seq<int>, lo: int, hi: int)
    ensures CountIn(log, lo, hi) <= |log|
    ensures log != [] && log[0] <= lo ==> CountIn(log, lo, hi) <= |log| - 1
  {
    if log != [] {
      CountAtMost(log[1..], lo, hi);
    }
  }

  /** Admitting one more request keeps every interval bounded. */
  lemma AdmitKeepsBound(earlier: seq<int>, latest: seq<int>, start: int, now: int, limit: int, window: int)
    requires window > 0 && start <= now && |latest| < limit
    requires forall t :: t in earlier ==> t <= start
    requires CountIn(earlier, start - Length(window), start) <= Max(0, limit - 1)
    requires Bounded(earlier + latest, limit, window)
    ensures Bounded(earlier + (latest + [now]), limit, window)
  {
    forall a, b | b == a + Length(window)
      ensures CountIn(earlier + (latest + [now]), a, b) <= Most(limit)
    {
      CountInConcat(earlier, latest, a, b);
      CountInConcat(earlier, latest + [now], a, b);
      CountInSnoc(latest, now, a, b);
      if a < now <= b {
        CountInCompare(earlier, a, b, start - Length(window), start);
        CountAtMost(latest, a, b);
      }
    }
  }

  lemma StepTracksSameKey(k: Key, earlier: seq<int>, latest: seq<int>, start: int, last: int, now: int, limit: int, window: int)
    requires window > 0 && k.Present? && last <= now
    requires Tracks(k, earlier, latest, start, last, limit, window)
    ensures
      var (k', r) := Step(k, now, limit, window);
      Tracks(k', earlier, if r.allowed then latest + [now] else latest, start, now, limit, window)
  {
    if Step(k, now, limit, window).1.allowed {
      AdmitKeepsBound(earlier, latest, start, now, limit, window);
    }
  }

  /** A new lifetime starts a full window after the last one did, so one of its peers is out of reach. */
  lemma StepTracksNewKey(earlier: seq<int>, latest: seq<int>, start: int, last: int, now: int, limit: int, window: int)
    requires window > 0 && last <= now
    requires Tracks(Absent, earlier, latest, start, last, limit, window)
    ensures
      var (k', r) := Step(Absent, now, limit, window);
      Tracks(k', earlier + latest, if r.allowed then [now] else [], now, now, limit, window)
  {
    var all := earlier + latest;
    var lo := now - Length(window);
    CountInConcat(earlier, latest, lo, now);
    NothingAbove(earlier, lo, now);
    CountAtMost(latest, lo, now);
    assert CountIn(all, lo, now) <= Max(0, limit - 1);
    assert all + [] == all;
    if Step(Absent, now, limit, window).1.allowed {
      AdmitKeepsBound(all, [], now, now, limit, window);
      assert [] + [now] == [now];
    }
  }

  lemma {:induction false} BoundedFrom(k: Key, earlier: seq<int>, latest: seq<int>, start: int, last: int,
                                       events: seq<Event>, limit: int, window: int)
    requires window > 0 && Tracks(k, earlier, latest, start, last, limit, window)
    requires Legal(k, last, events, limit, window)
    ensures Bounded(earlier + latest + AdmittedAt(k, events, limit, window), limit, window)
    decreases |events|
  {
    if events == [] {
      assert earlier + latest + AdmittedAt(k, events, limit, window) == earlier + latest;
    } else {
      var now, tail := events[0].now, events[1..];
      var k' := After(k, events[0], limit, window);
      var rest := AdmittedAt(k', tail, limit, window);
      match events[0]
      case Vanish(_) =>
        BoundedFrom(Absent, earlier, latest, start, now, tail, limit, window);
        assert AdmittedAt(k, events, limit, window) == rest;
      case Call(_) =>
        var taken := if Takes(k, events[0], limit, window) then [now] else [];
        if k.Present? {
          StepTracksSameKey(k, earlier, latest, start, last, now, limit, window);
          assert latest + [] == latest;
          BoundedFrom(k', earlier, latest + taken, start, now, tail, limit, window);
          assert earlier + latest + (taken + rest) == earlier + (latest + taken) + rest;
        } else {
          StepTracksNewKey(earlier, latest, start, last, now, limit, window);
          BoundedFrom(k', earlier + latest, taken, now, now, tail, limit, window);
          assert earlier + latest + (taken + rest) == earlier + latest + taken + rest;
        }
    }
  }

  /** Any interval of one window holds at most 2 * limit - 1 admissions, wherever keys expire in it. */
  lemma WindowBound(events: seq<Event>, limit: int, window: int, a: int)
    requires window > 0 && Legal(Absent, 0, events, limit, window)
    ensures CountIn(AdmittedAt(Absent, events, limit, window), a, a + 1000 * window) <= if limit >= 1 then 2 * limit - 1 else 0
  {
    BoundedFrom(Absent, [], [], -Length(window), 0, events, limit, window);
    assert [] + [] + AdmittedAt(Absent, events, limit, window) == AdmittedAt(Absent, events, limit, window);
  }

  function Times(events: seq<Event>): seq<int> {
    seq(|events|, i requires 0 <= i < |events| => events[i].now)
  }

  /** One lifetime of the key admits exactly its first `limit` calls. */
  lemma {:induction false} LifetimeAdmitsFirst(k: Key, events: seq<Event>, limit: int, window: int)
    requires forall e :: e in events ==> e.Call?
    requires k.Present? ==> k.count >= 0
    ensures
      var before := if k.Present? then k.count else 0;
      var n := if before + |events| <= limit then |events| else Max(0, limit - before);
      AdmittedAt(k, events, limit, window) == Times(events)[..n]
    decreases |events|
  {
    if events != [] {
      var rest := events[1..];
      LifetimeAdmitsFirst(After(k, events[0], limit, window), rest, limit, window);
      assert Times(events) == [events[0].now] + Times(rest);
    }
  }

  /**
    In one lifetime of the key the next call is admitted exactly when fewer than `limit`
    calls came before, and is told how many more are left.
   */
  lemma {:induction false} RemainingIs(k: Key, events: seq<Event>, now: int, limit: int, window: int)
    requires (forall e :: e in events ==> e.Call?) && (k.Present? ==> k.count >= 0)
    ensures
      var before := (if k.Present? then k.count else 0) + |events|;
      var r := Step(AfterAll(k, events, limit, window), now, limit, window).1;
      && (r.allowed <==> before < limit) && r.remaining == (if r.allowed then limit - before - 1 else 0)
      && (r.allowed ==> r.retryAfter == 0)
    decreases |events|
  {
    if events != [] {
      RemainingIs(After(k, events[0], limit, window), events[1..], now, limit, window);
    }
  }

  /**
    A denied call is told the seconds the key has left, rounded to the nearest, or the window
    when that is none. It is gone by then exactly when that was not rounded down.
   */
  lemma RetryAfterSufficesIff(k: Key, now: int, limit: int, window: int)
    requires window > 0 && k.Present? && k.count >= 1 && !Step(k, now, limit, window).1.allowed
    ensures
      var seconds, left := Step(k, now, limit, window).1.retryAfter, k.expireAt - now;
      && (if left < 500 then seconds == window else left - 500 < 1000 * seconds <= left + 500)
      && (now + 1000 * seconds >= k.expireAt <==> left < 500 || left % 1000 == 0 || left % 1000 >= 500)
  {
  }

  /** Told one second, a caller that waits it is denied again 400 milliseconds before the key expires. */
  lemma RetryAfterIsTooShort()
    ensures
      var k := Present(1, 1400);
      && Step(k, 0, 1, 2) == (Present(2, 1400), Reply(false, 0, 1))
      && !Step(Present(2, 1400), 1000, 1, 2).1.allowed
  {
  }

  function AfterAll(k: Key, events: seq<Event>, limit: int, window: int): Key
    decreases |events|
  {
    if events == [] then k else AfterAll(After(k, events[0], limit, window), events[1..], limit, window)
  }

  lemma {:induction false} AdmittedConcat(k: Key, a: seq<Event>, b: seq<Event>, limit: int, window: int)
    ensures AdmittedAt(k, a + b, limit, window) ==
            AdmittedAt(k, a, limit, window) + AdmittedAt(AfterAll(k, a, limit, window), b, limit, window)
    decreases |a|
  {
    if a == [] {
      assert a + b == b;
    } else {
      AdmittedConcat(After(k, a[0], limit, window), a[1..], b, limit, window);
      Unfold(k, 0, a[0], a[1..] + b, limit, window);
      assert [a[0]] + (a[1..] + b) == a + b;
    }
  }

  lemma {:induction false} LegalConcat(k: Key, last: int, a: seq<Event>, b: seq<Event>, limit: int, window: int)
    requires Legal(k, last, a, limit, window)
    requires Legal(AfterAll(k, a, limit, window), if a == [] then last else a[|a| - 1].now, b, limit, window)
    ensures Legal(k, last, a + b, limit, window)
    decreases |a|
  {
    if a == [] {
      assert a + b == b;
    } else {
      LegalConcat(After(k, a[0], limit, window), a[0].now, a[1..], b, limit, window);
      Unfold(k, last, a[0], a[1..] + b, limit, window);
      assert [a[0]] + (a[1..] + b) == a + b;
    }
  }

  /** A number of calls at one instant. */
  function CallsAt(t: int, n: nat): (events: seq<Event>)
    ensures |events| == n && forall e :: e in events ==> e == Call(t)
  {
    seq(n, _ => Call(t))
  }

  function Copies(t: int, n: nat): seq<int> {
    seq(n, _ => t)
  }

  lemma {:induction false} Burst(count: nat, expireAt: int, t: int, n: nat, limit: int, window: int)
    requires 1 <= count && count + n <= limit
    ensures Legal(Present(count, expireAt), t, CallsAt(t, n), limit, window)
    ensures AfterAll(Present(count, expireAt), CallsAt(t, n), limit, window) == Present(count + n, expireAt)
    ensures AdmittedAt(Present(count, expireAt), CallsAt(t, n), limit, window) == Copies(t, n)
    decreases n
  {
    if n > 0 {
      Burst(count + 1, expireAt, t, n - 1, limit, window);
      assert CallsAt(t, n)[0] == Call(t) && CallsAt(t, n)[1..] == CallsAt(t, n - 1);
      assert Copies(t, n) == [t] + Copies(t, n - 1);
    }
  }

  lemma {:induction false} CountCopies(t: int, n: nat, lo: int, hi: int)
    ensures CountIn(Copies(t, n), lo, hi) == if lo < t <= hi then n else 0
  {
    if n > 0 {
      CountCopies(t, n - 1, lo, hi);
      assert Copies(t, n)[0] == t && Copies(t, n)[1..] == Copies(t, n - 1);
    }
  }

  /** One call at zero, the rest of the limit just before the key expires, and a full limit right after. */
  function TightRun(limit: nat, window: nat): seq<Event>
    requires limit >= 1
  {
    [Call(0)] + (CallsAt(Length(window) - 1, limit - 1)
                 + ([Vanish(Length(window)), Call(Length(window))] + CallsAt(Length(window), limit - 1)))
  }

  lemma SecondLifetime(limit: nat, window: nat)
    requires limit >= 1 && window >= 1
    ensures
      var l := Length(window);
      var run := [Vanish(l), Call(l)] + CallsAt(l, limit - 1);
      Legal(Present(limit, l), l - 1, run, limit, window) && AdmittedAt(Present(limit, l), run, limit, window) == [l] + Copies(l, limit - 1)
  {
    var l := Length(window);
    Burst(1, 2 * l, l, limit - 1, limit, window);
    Unfold(Absent, l, Call(l), CallsAt(l, limit - 1), limit, window);
    Unfold(Present(limit, l), l - 1, Vanish(l), [Call(l)] + CallsAt(l, limit - 1), limit, window);
    assert [Vanish(l)] + ([Call(l)] + CallsAt(l, limit - 1)) == [Vanish(l), Call(l)] + CallsAt(l, limit - 1);
  }

  lemma TightAdmissions(limit: nat, window: nat)
    requires limit >= 1 && window >= 1
    ensures
      var l := Length(window);
      && Legal(Absent, 0, TightRun(limit, window), limit, window)
      && AdmittedAt(Absent, TightRun(limit, window), limit, window) ==
         [0] + (Copies(l - 1, limit - 1) + ([l] + Copies(l, limit - 1)))
  {
    var l := Length(window);
    var early, late := CallsAt(l - 1, limit - 1), [Vanish(l), Call(l)] + CallsAt(l, limit - 1);
    Burst(1, l, l - 1, limit - 1, limit, window);
    SecondLifetime(limit, window);
    LaterStart(Present(1, l), 0, l - 1, early, limit, window);
    LaterStart(Present(limit, l), 0, l - 1, late, limit, window);
    LegalConcat(Present(1, l), 0, early, late, limit, window);
    AdmittedConcat(Present(1, l), early, late, limit, window);
    Unfold(Absent, 0, Call(0), early + late, limit, window);
  }

  lemma LaterStart(k: Key, last: int, last': int, events: seq<Event>, limit: int, window: int)
    requires last <= last' && Legal(k, last', events, limit, window)
    ensures Legal(k, last, events, limit, window)
  {
  }

  /** The bound is reached for every positive limit and window: a run admits 2 * limit - 1 requests within one window. */
  lemma BoundIsTight(limit: nat, window: nat)
    requires limit >= 1 && window >= 1
    ensures Legal(Absent, 0, TightRun(limit, window), limit, window)
    ensures
      var a := 1000 * window - 2;
      CountIn(AdmittedAt(Absent, TightRun(limit, window), limit, window), a, a + 1000 * window) == 2 * limit - 1
  {
    var l := Length(window);
    var early, late := Copies(l - 1, limit - 1), [l] + Copies(l, limit - 1);
    TightAdmissions(limit, window);
    CountCopies(l - 1, limit - 1, l - 2, l - 2 + l);
    CountCopies(l, limit - 1, l - 2, l - 2 + l);
    CountInConcat([l], Copies(l, limit - 1), l - 2, l - 2 + l);
    CountInConcat(early, late, l - 2, l - 2 + l);
    CountInConcat([0], early + late, l - 2, l - 2 + l);
    assert CountIn([l], l - 2, l - 2 + l) == 1 && CountIn([0], l - 2, l - 2 + l) == 0;
  }

  lemma Unfold(k: Key, last: int, e: Event, rest: seq<Event>, limit: int, window: int)
    ensures AdmittedAt(k, [e] + rest, limit, window) ==
            (if Takes(k, e, limit, window) then [e.now] else []) + AdmittedAt(After(k, e, limit, window), rest, limit, window)
    ensures Legal(k, last, [e] + rest, limit, window) <==>
            (last <= e.now && (e.Vanish? && k.Present? ==> e.now >= k.expireAt)
             && Legal(After(k, e, limit, window), e.now, rest, limit, window))
  {
    assert ([e] + rest)[1..] == rest;
  }
}
