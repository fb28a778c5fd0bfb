/** What follows for the sliding window from its refinement of the log: expiry, the bound, the retry time. */
module SlidingWindowBounds {
  import opened Arithmetic
  import opened AdmissionLog
  import opened SlidingWindow

  lemma {:induction false} LogIgnoresVanish(log: seq<int>, events: seq<Event>, limit: int, window: int)
    ensures LogAnswers(log, events, limit, window) == LogAnswers(log, OnlyCalls(events), limit, window)
    decreases |events|
  {
    if events != [] {
      match events[0]
      case Call(now, _) =>
        var log' := if CountIn(log, now - window, now) < limit then log + [now] else log;
        LogIgnoresVanish(log', events[1..], limit, window);
        assert OnlyCalls(events)[1..] == OnlyCalls(events[1..]);
      case Vanish(_) =>
        LogIgnoresVanish(log, events[1..], limit, window);
        assert OnlyCalls(events) == OnlyCalls(events[1..]);
    }
  }

  lemma {:induction false} OnlyCallsMembers(events: seq<Event>)
    ensures forall e :: e in OnlyCalls(events) ==> e.Call? && e in events
  {
    if events != [] {
      OnlyCallsMembers(events[1..]);
    }
  }

  lemma FreshFront(e: Event, rest: seq<Event>)
    requires e.Call? && FreshMembers(Absent, rest)
    requires forall x :: x in rest && x.Call? ==> (x.now, x.nonce) != (e.now, e.nonce)
    ensures FreshMembers(Absent, [e] + rest)
  {
    var all := [e] + rest;
    forall i, j | 0 <= i < j < |all| && all[i].Call? && all[j].Call?
      ensures (all[i].now, all[i].nonce) != (all[j].now, all[j].nonce)
    {
      assert all[j] == rest[j - 1] && rest[j - 1] in rest;
    }
  }

  lemma {:induction false} OnlyCallsFresh(events: seq<Event>)
    requires FreshMembers(Absent, events)
    ensures FreshMembers(Absent, OnlyCalls(events))
  {
    if events != [] {
      FreshTail(Absent, Absent, events);
      OnlyCallsFresh(events[1..]);
      if events[0].Call? {
        OnlyCallsMembers(events[1..]);
        forall x | x in OnlyCalls(events[1..])
          ensures (x.now, x.nonce) != (events[0].now, events[0].nonce)
        {
          assert x in events[1..];
          var n :| 1 <= n < |events| && events[n] == x;
        }
        FreshFront(events[0], OnlyCalls(events[1..]));
      } else {
        assert OnlyCalls(events) == OnlyCalls(events[1..]);
      }
    }
  }

  lemma {:induction false} OnlyCallsLegal(k: Key, k': Key, last: int, last': int, events: seq<Event>, limit: int, window: int)
    requires last' <= last && Legal(k, last, events, limit, window)
    ensures Legal(k', last', OnlyCalls(events), limit, window)
    decreases |events|
  {
    if events != [] {
      match events[0]
      case Call(now, nonce) =>
        var next := Step(k', now, nonce, limit, window).0;
        OnlyCallsLegal(Step(k, now, nonce, limit, window).0, next, now, now, events[1..], limit, window);
        assert OnlyCalls(events)[1..] == OnlyCalls(events[1..]);
      case Vanish(now) =>
        OnlyCallsLegal(Absent, k', now, last', events[1..], limit, window);
        assert OnlyCalls(events) == OnlyCalls(events[1..]);
    }
  }

  /** Expiry is invisible: dropping every vanish event from a run changes no answer. */
  lemma ExpiryIsInvisible(events: seq<Event>, limit: int, window: int)
    requires window > 0
    requires Legal(Absent, 0, events, limit, window) && FreshMembers(Absent, events)
    ensures AllowedOf(Replies(Absent, events, limit, window)) ==
            AllowedOf(Replies(Absent, OnlyCalls(events), limit, window))
  {
    RefinesLog(events, limit, window);
    LogIgnoresVanish([], events, limit, window);
    OnlyCallsFresh(events);
    OnlyCallsLegal(Absent, Absent, 0, 0, events, limit, window);
    RefinesLog(OnlyCalls(events), limit, window);
  }

  // ----- the bound -----

  ghost predicate Bounded(log: seq<int>, limit: int, window: int) {
    forall a, b :: b == a + window ==> CountIn(log, a, b) <= Max(0, limit)
  }

  lemma {:induction false} LogStaysBounded(k: Key, log: seq<int>, last: int, events: seq<Event>, limit: int, window: int)
    requires window > 0 && Bounded(log, limit, window)
    requires forall t :: t in log ==> t <= last
    requires Legal(k, last, events, limit, window)
    ensures Bounded(LogAfter(log, events, limit, window), limit, window)
    decreases |events|
  {
    if events != [] {
      match events[0]
      case Call(now, nonce) =>
        var ok := CountIn(log, now - window, now) < limit;
        var log' := if ok then log + [now] else log;
        forall a, b | b == a + window
          ensures CountIn(log', a, b) <= Max(0, limit)
        {
          CountInSnoc(log, now, a, b);
          if a < now <= b {
            CountInCompare(log, a, b, now - window, now);
          }
        }
        LogStaysBounded(Step(k, now, nonce, limit, window).0, log', now, events[1..], limit, window);
      case Vanish(now) =>
        LogStaysBounded(Absent, log, now, events[1..], limit, window);
    }
  }

  /** No interval (a, a + window] of a run holds more than `limit` admissions. */
  lemma WindowBound(events: seq<Event>, limit: int, window: int, a: int)
    requires window > 0
    requires Legal(Absent, 0, events, limit, window) && FreshMembers(Absent, events)
    ensures CountIn(AdmittedAt(Absent, events, limit, window), a, a + window) <= Max(0, limit)
  {
    RefinesLog(events, limit, window);
    LogStaysBounded(Absent, [], 0, events, limit, window);
  }

  /**
    Freshness is needed: when the random part repeats within a millisecond the second
    call overwrites the first one's member, and a limit of two admits three requests at once.
   */
  lemma RepeatedMemberBreaksTheBound()
    ensures
      var run := [Call(1, 7), Call(1, 7), Call(1, 7)];
      && Legal(Absent, 0, run, 2, 1000)
      && !FreshMembers(Absent, run)
      && AdmittedAt(Absent, run, 2, 1000) == [1, 1, 1]
  {
    var run := [Call(1, 7), Call(1, 7), Call(1, 7)];
    var e := Entry(1, Member(1, 7));
    assert run[1..] == [Call(1, 7), Call(1, 7)] && run[1..][1..] == [Call(1, 7)];
    var k1 := Present([e], 2001);
    assert RemoveUpTo([], 1 - 1000) == [];
    assert Add([], e) == [e];
    assert Step(Absent, 1, 7, 2, 1000) == (k1, Reply(true, 1, 0));
    assert RemoveUpTo([e], 1 - 1000) == [e] by { assert [e][1..] == []; }
    assert RemoveMember([e], e.member) == [] by { assert [e][1..] == []; }
    assert Step(k1, 1, 7, 2, 1000) == (k1, Reply(true, 0, 0));
    assert (run[0].now, run[0].nonce) == (run[1].now, run[1].nonce);
    calc {
      AdmittedAt(Absent, run, 2, 1000);
      [1] + AdmittedAt(k1, [Call(1, 7), Call(1, 7)], 2, 1000);
      { assert [Call(1, 7), Call(1, 7)][1..] == [Call(1, 7)]; }
      [1] + ([1] + AdmittedAt(k1, [Call(1, 7)], 2, 1000));
      { assert [Call(1, 7)][1..] == []; }
      [1] + ([1] + ([1] + AdmittedAt(k1, [], 2, 1000)));
      [1, 1, 1];
    }
    assert Legal(k1, 1, [], 2, 1000);
    assert Legal(k1, 1, [Call(1, 7)], 2, 1000);
    assert Legal(k1, 1, [Call(1, 7), Call(1, 7)], 2, 1000);
  }

  // ----- the advertised retry time -----

  ghost predicate SortedScores(es: seq<Entry>) {
    forall i, j :: 0 <= i < j < |es| ==> es[i].score <= es[j].score
  }

  lemma {:induction false} LiveCountAt(es: seq<Entry>, max: int)
    requires es != [] && SortedScores(es) && forall e :: e in es ==> 0 <= e.score
    ensures |RemoveUpTo(es, max)| <= |es|
    ensures |RemoveUpTo(es, max)| == |es| <==> es[0].score > max
  {
    if |es| > 1 {
      LiveCountAt(es[1..], max);
    } else {
      assert RemoveUpTo(es[1..], max) == [];
    }
  }

  /** The key a run leaves, and the time of its last event. */
  function KeyAfter(k: Key, events: seq<Event>, limit: int, window: int): Key
    decreases |events|
  {
    if events == [] then k
    else match events[0]
      case Call(now, nonce) => KeyAfter(Step(k, now, nonce, limit, window).0, events[1..], limit, window)
      case Vanish(_) => KeyAfter(Absent, events[1..], limit, window)
  }

  function LastTime(last: int, events: seq<Event>): int {
    if events == [] then last else events[|events| - 1].now
  }

  /** Fresh members and the clock, up to the last event of a run. */
  lemma {:induction false} RunTracks(k: Key, log: seq<int>, last: int, events: seq<Event>, e: Event, limit: int, window: int)
    returns (now: int)
    requires window > 0 && 0 <= last && Tracks(k, log, last, window) && e.Call?
    requires Legal(k, last, events + [e], limit, window) && FreshMembers(k, events + [e])
    ensures 0 <= now <= e.now
    ensures Tracks(KeyAfter(k, events, limit, window), log + AdmittedAt(k, events, limit, window), now, window)
    ensures forall x :: x in EntriesOf(KeyAfter(k, events, limit, window)) ==> x.member != Member(e.now, e.nonce)
    decreases |events|
  {
    var all := events + [e];
    if events == [] {
      now := last;
      assert all[0] == e && log + [] == log;
    } else {
      assert all[0] == events[0] && all[1..] == events[1..] + [e];
      match events[0]
      case Call(at, nonce) =>
        CallKeeps(k, log, last, all, limit, window);
        var k', log' := CallLogged(k, log, events, limit, window);
        now := RunTracks(k', log', at, events[1..], e, limit, window);
      case Vanish(at) =>
        VanishTracks(k, log, last, at, window);
        FreshTail(k, Absent, all);
        now := RunTracks(Absent, log, at, events[1..], e, limit, window);
    }
  }

  /** The key and the log after the first call of a run. */
  lemma CallLogged(k: Key, log: seq<int>, events: seq<Event>, limit: int, window: int)
    returns (k': Key, log': seq<int>)
    requires events != [] && events[0].Call?
    ensures
      var (next, r) := Step(k, events[0].now, events[0].nonce, limit, window);
      && k' == next && log' == (if r.allowed then log + [events[0].now] else log)
      && KeyAfter(k, events, limit, window) == KeyAfter(k', events[1..], limit, window)
      && log + AdmittedAt(k, events, limit, window) == log' + AdmittedAt(k', events[1..], limit, window)
  {
    var (next, r) := Step(k, events[0].now, events[0].nonce, limit, window);
    k', log' := next, if r.allowed then log + [events[0].now] else log;
    assert log + ((if r.allowed then [events[0].now] else []) + AdmittedAt(k', events[1..], limit, window)) ==
           log' + AdmittedAt(k', events[1..], limit, window);
  }

  /**
    Each call of a run is told how many more the window has room for: the limit less the
    admissions in its window, its own included; a denied one is told none. An admission
    leaves the key for two windows.
   */
  lemma RemainingIs(events: seq<Event>, now: int, nonce: int, limit: int, window: int)
    requires window > 0
    requires Legal(Absent, 0, events + [Call(now, nonce)], limit, window) && FreshMembers(Absent, events + [Call(now, nonce)])
    ensures
      var (k', r) := Step(KeyAfter(Absent, events, limit, window), now, nonce, limit, window);
      var admitted := AdmittedAt(Absent, events, limit, window);
      && (r.allowed <==> CountIn(admitted, now - window, now) < limit)
      && r.remaining == (if r.allowed then limit - CountIn(admitted + [now], now - window, now) else 0)
      && (r.allowed ==> r.retryAfter == 0 && k'.Present? && k'.expireAt == now + 2 * window)
  {
    var last := RunTracks(Absent, [], 0, events, Call(now, nonce), limit, window);
    var admitted := AdmittedAt(Absent, events, limit, window);
    assert [] + admitted == admitted;
    StepTracks(KeyAfter(Absent, events, limit, window), admitted, last, now, nonce, limit, window);
    CountInSnoc(admitted, now, now - window, now);
  }

  /** What a key of a run looks like: in order of score, nothing from the future, never more than the limit. */
  ghost predicate KeyOk(k: Key, last: int, limit: int) {
    && SortedScores(EntriesOf(k)) && (forall e :: e in EntriesOf(k) ==> 0 <= e.score <= last)
    && |EntriesOf(k)| <= Max(0, limit)
  }

  lemma {:induction false} InsertKeepsOrder(es: seq<Entry>, e: Entry)
    requires SortedScores(es)
    ensures SortedScores(InsertByScore(es, e)) && |InsertByScore(es, e)| == |es| + 1
    ensures forall x :: x in InsertByScore(es, e) <==> x in es || x == e
  {
    if es != [] && e.score >= es[0].score {
      InsertKeepsOrder(es[1..], e);
      var rest := InsertByScore(es[1..], e);
      forall i | 0 <= i < |rest|
        ensures es[0].score <= rest[i].score
      {
        assert rest[i] in rest;
        assert rest[i] == e || rest[i] in es[1..];
      }
      assert es == [es[0]] + es[1..];
    }
  }

  lemma {:induction false} RemovalKeepsOrder(es: seq<Entry>, m: Member)
    requires SortedScores(es)
    ensures SortedScores(RemoveMember(es, m)) && |RemoveMember(es, m)| <= |es|
    ensures forall x :: x in RemoveMember(es, m) ==> x in es
  {
    if es != [] {
      RemovalKeepsOrder(es[1..], m);
      var rest := RemoveMember(es[1..], m);
      forall i | 0 <= i < |rest|
        ensures es[0].score <= rest[i].score
      {
        assert rest[i] in es[1..];
      }
    }
  }

  lemma LiveKeyOk(es: seq<Entry>, last: int, max: int)
    requires SortedScores(es) && forall e :: e in es ==> 0 <= e.score <= last
    ensures
      var live := RemoveUpTo(es, max);
      SortedScores(live) && |live| <= |es| && forall e :: e in live ==> 0 <= e.score <= last
  {
    PurgeKeepsLive(es, max);
    PurgeKeepsOrder(es, max);
    LiveAtMost(es, max);
  }

  lemma AddKeepsOrder(live: seq<Entry>, last: int, e: Entry)
    requires SortedScores(live) && (forall x :: x in live ==> 0 <= x.score <= last) && 0 <= last <= e.score
    ensures SortedScores(Add(live, e)) && |Add(live, e)| <= |live| + 1
    ensures forall x :: x in Add(live, e) ==> 0 <= x.score <= e.score
  {
    RemovalKeepsOrder(live, e.member);
    InsertKeepsOrder(RemoveMember(live, e.member), e);
  }

  lemma StepKeepsKeyOk(k: Key, last: int, now: int, nonce: int, limit: int, window: int)
    requires window > 0 && 0 <= last <= now && KeyOk(k, last, limit)
    ensures KeyOk(Step(k, now, nonce, limit, window).0, now, limit)
  {
    var live := RemoveUpTo(EntriesOf(k), now - window);
    LiveKeyOk(EntriesOf(k), last, now - window);
    if |live| < limit {
      AddKeepsOrder(live, last, Entry(now, Member(now, nonce)));
    } else {
      assert EntriesOf(Step(k, now, nonce, limit, window).0) == live;
    }
  }

  lemma {:induction false} LiveAtMost(es: seq<Entry>, max: int)
    ensures |RemoveUpTo(es, max)| <= |es|
  {
    if es != [] {
      LiveAtMost(es[1..], max);
    }
  }

  lemma {:induction false} RunKeepsKeyOk(k: Key, last: int, events: seq<Event>, limit: int, window: int)
    requires window > 0 && 0 <= last && KeyOk(k, last, limit) && Legal(k, last, events, limit, window)
    ensures KeyOk(KeyAfter(k, events, limit, window), LastTime(last, events), limit) && last <= LastTime(last, events)
    decreases |events|
  {
    if events != [] {
      var now := events[0].now;
      match events[0]
      case Call(_, nonce) =>
        StepKeepsKeyOk(k, last, now, nonce, limit, window);
        RunKeepsKeyOk(Step(k, now, nonce, limit, window).0, now, events[1..], limit, window);
      case Vanish(_) =>
        RunKeepsKeyOk(Absent, now, events[1..], limit, window);
    }
  }

  /**
    After a denial, at any point of any run, an undisturbed later call is admitted exactly
    from `oldest + window` on. The advertised seconds are `now - oldest + window`, rounded
    up; waiting them always suffices, but that wait is the least one, before rounding, only
    when the oldest admission happened at the very instant of the denied call.
   */
  lemma RetryAfterSuffices(events: seq<Event>, now: int, nonce: int, limit: int, window: int, t: int, nonce': int)
    requires window > 0 && limit > 0 && Legal(Absent, 0, events, limit, window)
    requires LastTime(0, events) <= now <= t
    requires !Step(KeyAfter(Absent, events, limit, window), now, nonce, limit, window).1.allowed
    ensures
      var k := KeyAfter(Absent, events, limit, window);
      var live := RemoveUpTo(EntriesOf(k), now - window);
      var (k', r) := Step(k, now, nonce, limit, window);
      var later := Step(k', t, nonce', limit, window).1;
      && |live| == limit
      && (later.allowed <==> t >= live[0].score + window)
      && (t >= now + 1000 * r.retryAfter ==> later.allowed)
      && 1000 * (r.retryAfter - 1) < now - live[0].score + window <= 1000 * r.retryAfter
      && (now - live[0].score + window == live[0].score + window - now <==> live[0].score == now)
  {
    RunKeepsKeyOk(Absent, 0, events, limit, window);
    var k := KeyAfter(Absent, events, limit, window);
    var live := RemoveUpTo(EntriesOf(k), now - window);
    LiveAtMost(EntriesOf(k), now - window);
    var (k', r) := Step(k, now, nonce, limit, window);
    DeniedByFullSet(k, now, nonce, limit, window);
    LaterAllowedIff(k', live, t, nonce', limit, window);
    WaitIsEnough(live[0].score, now, window);
  }

  /** With a limit that is not positive every call of every run is denied, and told to wait for the window, in seconds rounded up. */
  lemma NoLimitAdmitsNone(events: seq<Event>, now: int, nonce: int, limit: int, window: int)
    requires window > 0 && limit <= 0 && Legal(Absent, 0, events, limit, window)
    ensures
      var r := Step(KeyAfter(Absent, events, limit, window), now, nonce, limit, window).1;
      && !r.allowed && r.remaining == 0
      && 1000 * (r.retryAfter - 1) < window <= 1000 * r.retryAfter
  {
    RunKeepsKeyOk(Absent, 0, events, limit, window);
    LiveAtMost(EntriesOf(KeyAfter(Absent, events, limit, window)), now - window);
  }

  /** The denial: the purged set is left behind, and its oldest member decides the wait. */
  lemma DeniedByFullSet(k: Key, now: int, nonce: int, limit: int, window: int)
    requires window > 0 && limit > 0 && 0 <= now
    requires SortedScores(EntriesOf(k)) && forall e :: e in EntriesOf(k) ==> 0 <= e.score <= now
    requires |RemoveUpTo(EntriesOf(k), now - window)| == limit
    ensures
      var live := RemoveUpTo(EntriesOf(k), now - window);
      var (k', r) := Step(k, now, nonce, limit, window);
      && r == Reply(false, 0, CeilDiv(Max(1, now - live[0].score + window), 1000))
      && EntriesOf(k') == live && SortedScores(live) && (forall e :: e in live ==> 0 <= e.score <= now)
  {
    PurgeKeepsLive(EntriesOf(k), now - window);
    PurgeKeepsOrder(EntriesOf(k), now - window);
  }

  lemma WaitIsEnough(oldest: int, now: int, window: int)
    requires 0 <= oldest <= now && window > 0
    ensures
      var seconds := CeilDiv(Max(1, now - oldest + window), 1000);
      now + 1000 * seconds >= oldest + window && 1000 * (seconds - 1) < now - oldest + window <= 1000 * seconds
  {
    CeilCovers(now - oldest + window, 1000);
  }

  lemma LaterAllowedIff(k: Key, live: seq<Entry>, t: int, nonce: int, limit: int, window: int)
    requires EntriesOf(k) == live && |live| == limit > 0
    requires SortedScores(live) && forall e :: e in live ==> 0 <= e.score
    ensures Step(k, t, nonce, limit, window).1.allowed <==> t >= live[0].score + window
  {
    LiveCountAt(live, t - window);
  }

  lemma CeilCovers(a: int, b: int)
    requires b > 0
    ensures b * CeilDiv(a, b) >= a
  {
  }

  lemma {:induction false} PurgeKeepsOrder(es: seq<Entry>, max: int)
    requires SortedScores(es) && forall e :: e in es ==> 0 <= e.score
    ensures SortedScores(RemoveUpTo(es, max))
  {
    if es != [] {
      PurgeKeepsOrder(es[1..], max);
      PurgeKeepsLive(es[1..], max);
      var rest := RemoveUpTo(es[1..], max);
      forall i | 0 <= i < |rest|
        ensures es[0].score <= rest[i].score
      {
        assert rest[i] in es[1..];
      }
    }
  }
}
