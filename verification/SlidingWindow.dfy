/**
  The sliding-window rate-limit script: one sorted set per key, scored by the
  server clock in milliseconds.

  `Key` is the value of the Redis key, `Step` what one script call does to it, and
  `RedisSortedSet` the key itself with the commands the script issues. The script is
  compared with a plain log of every admission ever granted.
 */
module SlidingWindow {
  import opened Arithmetic
  import opened AdmissionLog

  /** A set member is the text `now-random`; the nonce stands for the random part. */
  datatype Member = Member(stamp: int, nonce: int)
  datatype Entry = Entry(score: int, member: Member)

  /** Redis keeps no empty sorted set: the key disappears with its last member. */
  datatype Key = Absent | Present(entries: seq<Entry>, expireAt: int)

  datatype Reply = Reply(allowed: bool, remaining: int, retryAfter: int)

  // ----- the commands, on values -----

  function EntriesOf(k: Key): seq<Entry> {
    match k
    case Absent => []
    case Present(entries, _) => entries
  }

  /** ZREMRANGEBYSCORE key 0 max. */
  function RemoveUpTo(es: seq<Entry>, max: int): seq<Entry> {
    if es == [] then []
    else (if 0 <= es[0].score <= max then [] else [es[0]]) + RemoveUpTo(es[1..], max)
  }

  function RemoveMember(es: seq<Entry>, m: Member): seq<Entry> {
    if es == [] then []
    else (if es[0].member == m then [] else [es[0]]) + RemoveMember(es[1..], m)
  }

  function InsertByScore(es: seq<Entry>, e: Entry): seq<Entry> {
    if es == [] || e.score < es[0].score then [e] + es
    else [es[0]] + InsertByScore(es[1..], e)
  }

  /** ZADD: a member already present is moved to the new score. */
  function Add(es: seq<Entry>, e: Entry): seq<Entry> {
    InsertByScore(RemoveMember(es, e.member), e)
  }

  function CeilDiv(a: int, b: int): int
    requires b > 0
  {
    -((-a) / b)
  }

  function Normalize(entries: seq<Entry>, expireAt: int): Key {
    if entries == [] then Absent else Present(entries, expireAt)
  }

  /** One atomic run of the script. */
  function Step(k: Key, now: int, nonce: int, limit: int, window: int): (Key, Reply) {
    var live := RemoveUpTo(EntriesOf(k), now - window);
    var purged := Normalize(live, if k.Present? then k.expireAt else 0);
    if |live| < limit then
      (Present(Add(live, Entry(now, Member(now, nonce))), now + 2 * window),
       Reply(true, limit - |live| - 1, 0))
    else if live != [] then
      (purged, Reply(false, 0, CeilDiv(Max(1, now - live[0].score + window), 1000)))
    else
      (purged, Reply(false, 0, CeilDiv(window, 1000)))
  }

  // ----- the key as the script updates it -----

  class RedisSortedSet {
    var entries: seq<Entry>
    var expireAt: int  // meaningful while the set has members

    constructor ()
      ensures State() == Absent
    {
      entries, expireAt := [], 0;
    }

    ghost function State(): Key
      reads this
    {
      Normalize(entries, expireAt)
    }

    method ZRemRangeByScore(max: int)
      modifies this`entries
      ensures entries == RemoveUpTo(old(entries), max)
    {
      var kept: seq<Entry> := [];
      var i := 0;
      while i < |entries|
        invariant 0 <= i <= |entries|
        invariant entries == old(entries)
        invariant kept + RemoveUpTo(entries[i..], max) == RemoveUpTo(entries, max)
      {
        if !(0 <= entries[i].score <= max) {
          kept := kept + [entries[i]];
        }
        i := i + 1;
      }
      entries := kept;
    }

    method ZAdd(score: int, member: Member)
      modifies this`entries
      ensures entries == Add(old(entries), Entry(score, member))
    {
      entries := Add(entries, Entry(score, member));
    }

    method PExpire(now: int, milliseconds: int)
      modifies this`expireAt
      ensures expireAt == now + milliseconds
    {
      expireAt := now + milliseconds;
    }

    /** The server drops an expired key; it may do so late, never early. */
    method Vanish(now: int)
      requires State().Present? ==> now >= expireAt
      modifies this
      ensures State() == Absent
    {
      entries := [];
    }

    /** The script: its answer and the key it leaves are exactly those of `Step`. */
    method TryAcquire(now: int, nonce: int, limit: int, window: int) returns (r: Reply)
      modifies this
      ensures (State(), r) == Step(old(State()), now, nonce, limit, window)
    {
      ZRemRangeByScore(now - window);
      var count := |entries|;
      if count < limit {
        ZAdd(now, Member(now, nonce));
        AddIsNotEmpty(old(RemoveUpTo(entries, now - window)), Entry(now, Member(now, nonce)));
        PExpire(now, window * 2);
        return Reply(true, limit - count - 1, 0);
      }
      var retry := window;
      if |entries| > 0 {
        retry := Max(1, now - entries[0].score + window);
      }
      r := Reply(false, 0, CeilDiv(retry, 1000));
    }
  }

  lemma AddIsNotEmpty(es: seq<Entry>, e: Entry)
    ensures Add(es, e) != []
  {
  }

  // ----- runs -----

  /** A call of the script, or the server dropping the expired key. */
  datatype Event = Call(now: int, nonce: int) | Vanish(now: int)

  /** The clock never runs backwards and a key never vanishes before its expiry. */
  ghost predicate Legal(k: Key, last: int, events: seq<Event>, limit: int, window: int)
    decreases |events|
  {
    events == [] ||
    (last <= events[0].now &&
     match events[0]
     case Call(now, nonce) => Legal(Step(k, now, nonce, limit, window).0, now, events[1..], limit, window)
     case Vanish(now) => (k.Present? ==> now >= k.expireAt) && Legal(Absent, now, events[1..], limit, window))
  }

  function Replies(k: Key, events: seq<Event>, limit: int, window: int): seq<Reply>
    decreases |events|
  {
    if events == [] then []
    else match events[0]
      case Call(now, nonce) =>
        var (k', r) := Step(k, now, nonce, limit, window);
        [r] + Replies(k', events[1..], limit, window)
      case Vanish(_) => Replies(Absent, events[1..], limit, window)
  }

  /** Each call draws a member that no earlier call of the run drew and the key does not hold. */
  ghost predicate FreshMembers(k: Key, events: seq<Event>) {
    && (forall i, e :: 0 <= i < |events| && events[i].Call? && e in EntriesOf(k) ==>
        e.member != Member(events[i].now, events[i].nonce))
    && (forall i, j :: 0 <= i < j < |events| && events[i].Call? && events[j].Call? ==>
        (events[i].now, events[i].nonce) != (events[j].now, events[j].nonce))
  }

  function OnlyCalls(events: seq<Event>): seq<Event> {
    if events == [] then []
    else (if events[0].Call? then [events[0]] else []) + OnlyCalls(events[1..])
  }

  // ----- the reference: a log of every admission -----

  /** The log answers a call by counting its admissions in (now - window, now]. */
  function LogAnswers(log: seq<int>, events: seq<Event>, limit: int, window: int): seq<bool>
    decreases |events|
  {
    if events == [] then []
    else match events[0]
      case Call(now, _) =>
        var ok := CountIn(log, now - window, now) < limit;
        [ok] + LogAnswers(if ok then log + [now] else log, events[1..], limit, window)
      case Vanish(_) => LogAnswers(log, events[1..], limit, window)
  }

  function LogAfter(log: seq<int>, events: seq<Event>, limit: int, window: int): seq<int>
    decreases |events|
  {
    if events == [] then log
    else match events[0]
      case Call(now, _) =>
        LogAfter(if CountIn(log, now - window, now) < limit then log + [now] else log, events[1..], limit, window)
      case Vanish(_) => LogAfter(log, events[1..], limit, window)
  }

  function AllowedOf(rs: seq<Reply>): seq<bool> {
    if rs == [] then [] else [rs[0].allowed] + AllowedOf(rs[1..])
  }

  /** The times at which a run of the script admitted a request. */
  function AdmittedAt(k: Key, events: seq<Event>, limit: int, window: int): seq<int>
    decreases |events|
  {
    if events == [] then []
    else match events[0]
      case Call(now, nonce) =>
        var (k', r) := Step(k, now, nonce, limit, window);
        (if r.allowed then [now] else []) + AdmittedAt(k', events[1..], limit, window)
      case Vanish(_) => AdmittedAt(Absent, events[1..], limit, window)
  }

  // ----- the invariant relating key and log -----

  function ScoresAbove(es: seq<Entry>, t: int): nat {
    if es == [] then 0 else (if es[0].score > t then 1 else 0) + ScoresAbove(es[1..], t)
  }

  /** Beyond the purge horizon the set and the log hold equally many admissions. */
  ghost predicate Tracks(k: Key, log: seq<int>, last: int, window: int) {
    && (forall e :: e in EntriesOf(k) ==> 0 <= e.score <= last)
    && (forall t :: t in log ==> t <= last)
    && (forall t :: t >= last - window ==> ScoresAbove(EntriesOf(k), t) == CountIn(log, t, last))
    && (k.Present? ==> forall t :: t in log ==> t + 2 * window <= k.expireAt)
  }

  lemma {:induction false} PurgeKeepsLive(es: seq<Entry>, max: int)
    requires forall e :: e in es ==> 0 <= e.score
    ensures forall e :: e in RemoveUpTo(es, max) ==> e in es && e.score > max
    ensures |RemoveUpTo(es, max)| == ScoresAbove(es, max)
    ensures forall t :: t >= max ==> ScoresAbove(RemoveUpTo(es, max), t) == ScoresAbove(es, t)
  {
    if es != [] {
      PurgeKeepsLive(es[1..], max);
      var rest := RemoveUpTo(es[1..], max);
      if es[0].score > max {
        assert RemoveUpTo(es, max) == [es[0]] + rest;
        assert ([es[0]] + rest)[1..] == rest;
      } else {
        assert RemoveUpTo(es, max) == rest;
      }
    }
  }

  lemma {:induction false} FreshAddAppends(es: seq<Entry>, e: Entry)
    requires forall x :: x in es ==> x.member != e.member && x.score <= e.score
    ensures RemoveMember(es, e.member) == es
    ensures Add(es, e) == es + [e]
  {
    if es != [] {
      FreshAddAppends(es[1..], e);
      assert RemoveMember(es, e.member) == es;
      assert InsertByScore(es, e) == [es[0]] + InsertByScore(es[1..], e);
      assert RemoveMember(es[1..], e.member) == es[1..];
    }
  }

  lemma {:induction false} ScoresAboveSnoc(es: seq<Entry>, e: Entry, t: int)
    ensures ScoresAbove(es + [e], t) == ScoresAbove(es, t) + if e.score > t then 1 else 0
  {
    if es == [] {
      assert ([e])[1..] == [];
      assert es + [e] == [e];
      assert ScoresAbove([], t) == 0;
    } else {
      ScoresAboveSnoc(es[1..], e, t);
      assert (es + [e])[1..] == es[1..] + [e];
    }
  }

  /** What a call finds after the purge: as many as the log has in the window. */
  lemma LiveTracks(k: Key, log: seq<int>, last: int, now: int, window: int)
    requires window > 0 && 0 <= last <= now && Tracks(k, log, last, window)
    ensures
      var live := RemoveUpTo(EntriesOf(k), now - window);
      && |live| == CountIn(log, now - window, now)
      && (forall e :: e in live ==> e in EntriesOf(k))
      && (forall t :: t >= now - window ==> ScoresAbove(live, t) == CountIn(log, t, now))
  {
    var live := RemoveUpTo(EntriesOf(k), now - window);
    PurgeKeepsLive(EntriesOf(k), now - window);
    CountInSame(log, now - window, now, last);
    forall t | t >= now - window
      ensures ScoresAbove(live, t) == CountIn(log, t, now)
    {
      CountInSame(log, t, now, last);
    }
  }

  lemma AddTracks(live: seq<Entry>, log: seq<int>, last: int, now: int, nonce: int, window: int)
    requires window > 0 && 0 <= last <= now
    requires forall e :: e in live ==> 0 <= e.score <= last && e.member != Member(now, nonce)
    requires forall t :: t in log ==> t <= last
    requires forall t :: t >= now - window ==> ScoresAbove(live, t) == CountIn(log, t, now)
    ensures
      var e := Entry(now, Member(now, nonce));
      Add(live, e) == live + [e] && Tracks(Present(live + [e], now + 2 * window), log + [now], now, window)
  {
    var e := Entry(now, Member(now, nonce));
    FreshAddAppends(live, e);
    forall t | t >= now - window
      ensures ScoresAbove(live + [e], t) == CountIn(log + [now], t, now)
    {
      ScoresAboveSnoc(live, e, t);
      CountInSnoc(log, now, t, now);
    }
  }

  /** One call keeps the invariant and is answered as the log answers it. */
  lemma StepTracks(k: Key, log: seq<int>, last: int, now: int, nonce: int, limit: int, window: int)
    requires window > 0 && 0 <= last <= now
    requires Tracks(k, log, last, window)
    requires forall e :: e in EntriesOf(k) ==> e.member != Member(now, nonce)
    ensures
      var (k', r) := Step(k, now, nonce, limit, window);
      && r.allowed == (CountIn(log, now - window, now) < limit)
      && r.remaining == (if r.allowed then limit - CountIn(log, now - window, now) - 1 else 0)
      && Tracks(k', if r.allowed then log + [now] else log, now, window)
      && (forall e :: e in EntriesOf(k') ==> e in EntriesOf(k) || e.member == Member(now, nonce))
  {
    var live := RemoveUpTo(EntriesOf(k), now - window);
    var (k', r) := Step(k, now, nonce, limit, window);
    LiveTracks(k, log, last, now, window);
    if r.allowed {
      AddTracks(live, log, last, now, nonce, window);
    } else {
      assert EntriesOf(k') == live;
    }
  }

  /** A key that vanishes at or after its expiry held nothing the log still counts. */
  lemma VanishTracks(k: Key, log: seq<int>, last: int, now: int, window: int)
    requires window > 0 && 0 <= last <= now
    requires Tracks(k, log, last, window)
    requires k.Present? ==> now >= k.expireAt
    ensures Tracks(Absent, log, now, window)
  {
    forall t | t >= now - window
      ensures CountIn(log, t, now) == 0
    {
      if k.Present? {
        NothingAbove(log, t, now);
      } else {
        CountInSame(log, t, now, last);
        assert ScoresAbove(EntriesOf(k), t) == 0;
      }
    }
  }

  lemma FreshTail(k: Key, k': Key, events: seq<Event>)
    requires events != [] && FreshMembers(k, events)
    requires forall e :: e in EntriesOf(k') ==>
               e in EntriesOf(k) || (events[0].Call? && e.member == Member(events[0].now, events[0].nonce))
    ensures FreshMembers(k', events[1..])
  {
    var tail := events[1..];
    forall i, e | 0 <= i < |tail| && tail[i].Call? && e in EntriesOf(k')
      ensures e.member != Member(tail[i].now, tail[i].nonce)
    {
      assert tail[i] == events[i + 1];
      if e !in EntriesOf(k) {
        assert (events[0].now, events[0].nonce) != (events[i + 1].now, events[i + 1].nonce);
      }
    }
    forall i, j | 0 <= i < j < |tail| && tail[i].Call? && tail[j].Call?
      ensures (tail[i].now, tail[i].nonce) != (tail[j].now, tail[j].nonce)
    {
      assert tail[i] == events[i + 1] && tail[j] == events[j + 1];
    }
  }

  lemma CallKeeps(k: Key, log: seq<int>, last: int, events: seq<Event>, limit: int, window: int)
    requires window > 0 && 0 <= last && Tracks(k, log, last, window)
    requires Legal(k, last, events, limit, window) && FreshMembers(k, events) && events != [] && events[0].Call?
    ensures
      var (k', r) := Step(k, events[0].now, events[0].nonce, limit, window);
      && Tracks(k', if r.allowed then log + [events[0].now] else log, events[0].now, window)
      && Legal(k', events[0].now, events[1..], limit, window) && FreshMembers(k', events[1..])
      && r.allowed == (CountIn(log, events[0].now - window, events[0].now) < limit)
  {
    StepTracks(k, log, last, events[0].now, events[0].nonce, limit, window);
    FreshTail(k, Step(k, events[0].now, events[0].nonce, limit, window).0, events);
  }

  /** If the rest of a run is answered as by the log, so is the run with a call in front. */
  lemma CallAnswers(k: Key, log: seq<int>, events: seq<Event>, limit: int, window: int)
    requires events != [] && events[0].Call?
    requires
      var (k', r) := Step(k, events[0].now, events[0].nonce, limit, window);
      && r.allowed == (CountIn(log, events[0].now - window, events[0].now) < limit)
      && AllowedOf(Replies(k', events[1..], limit, window)) ==
         LogAnswers(if r.allowed then log + [events[0].now] else log, events[1..], limit, window)
    ensures AllowedOf(Replies(k, events, limit, window)) == LogAnswers(log, events, limit, window)
  {
    var (k', r) := Step(k, events[0].now, events[0].nonce, limit, window);
    AllowedCons(r, Replies(k', events[1..], limit, window));
  }

  lemma CallAdmissions(k: Key, log: seq<int>, events: seq<Event>, limit: int, window: int)
    requires events != [] && events[0].Call?
    requires
      var (k', r) := Step(k, events[0].now, events[0].nonce, limit, window);
      var log' := if r.allowed then log + [events[0].now] else log;
      && r.allowed == (CountIn(log, events[0].now - window, events[0].now) < limit)
      && log' + AdmittedAt(k', events[1..], limit, window) == LogAfter(log', events[1..], limit, window)
    ensures log + AdmittedAt(k, events, limit, window) == LogAfter(log, events, limit, window)
  {
    var (k', r) := Step(k, events[0].now, events[0].nonce, limit, window);
    var mine, rest := if r.allowed then [events[0].now] else [], AdmittedAt(k', events[1..], limit, window);
    assert AdmittedAt(k, events, limit, window) == mine + rest;
    assert log + (mine + rest) == (log + mine) + rest && log + [] == log;
  }

  /**
    The script refines the log: over any run, with keys vanishing at any time at or
    after their expiry, every call is answered as if every admission had been kept.
   */
  lemma {:induction false} RefinesLogFrom(k: Key, log: seq<int>, last: int, events: seq<Event>, limit: int, window: int)
    requires window > 0 && 0 <= last
    requires Tracks(k, log, last, window)
    requires Legal(k, last, events, limit, window) && FreshMembers(k, events)
    ensures AllowedOf(Replies(k, events, limit, window)) == LogAnswers(log, events, limit, window)
    ensures log + AdmittedAt(k, events, limit, window) == LogAfter(log, events, limit, window)
    decreases |events|
  {
    if events != [] {
      match events[0]
      case Call(now, nonce) =>
        var (k', r) := Step(k, now, nonce, limit, window);
        var log' := if r.allowed then log + [now] else log;
        CallKeeps(k, log, last, events, limit, window);
        RefinesLogFrom(k', log', now, events[1..], limit, window);
        CallAnswers(k, log, events, limit, window);
        CallAdmissions(k, log, events, limit, window);
      case Vanish(now) =>
        VanishTracks(k, log, last, now, window);
        FreshTail(k, Absent, events);
        RefinesLogFrom(Absent, log, now, events[1..], limit, window);
    }
  }

  lemma AllowedCons(r: Reply, rest: seq<Reply>)
    ensures AllowedOf([r] + rest) == [r.allowed] + AllowedOf(rest)
  {
    assert ([r] + rest)[1..] == rest;
  }

  lemma RefinesLog(events: seq<Event>, limit: int, window: int)
    requires window > 0
    requires Legal(Absent, 0, events, limit, window) && FreshMembers(Absent, events)
    ensures AllowedOf(Replies(Absent, events, limit, window)) == LogAnswers([], events, limit, window)
    ensures AdmittedAt(Absent, events, limit, window) == LogAfter([], events, limit, window)
  {
    RefinesLogFrom(Absent, [], 0, events, limit, window);
    assert [] + AdmittedAt(Absent, events, limit, window) == AdmittedAt(Absent, events, limit, window);
  }
}
