/**
  The circuits of single destinations in the shared store: they open on the failure ratio
  among recent outcomes rather than on a run of failures, and every request asks all of
  them before it picks one destination. Each operation is a transition under the circuit's
  lock; times are clock ticks.
 */
module DestinationCircuits {
  import opened Wrappers
  import opened Arithmetic
  import opened CircuitBreaker

  /** The settings in force: positive, and a ratio of at most one. */
  datatype Settings = Settings(recovery: int, maxHalfOpen: int, ratio: real, minThroughput: int, sampling: int) {
    predicate Valid() { recovery > 0 && maxHalfOpen > 0 && 0.0 < ratio <= 1.0 && minThroughput > 0 && sampling > 0 }
  }

  /** As configured; what is out of range falls back to a default. */
  datatype RawSettings = RawSettings(
    recoveryTimeoutSeconds: int, halfOpenMaxAttempts: int, failureRatio: real, minimumThroughput: int, samplingDurationSeconds: int)

  function InForce(raw: RawSettings): (cfg: Settings)
    ensures cfg.Valid()
    ensures cfg.recovery == 10_000_000 * raw.recoveryTimeoutSeconds || (raw.recoveryTimeoutSeconds <= 0 && cfg.recovery == 10_000_000 * 30)
    ensures cfg.maxHalfOpen == raw.halfOpenMaxAttempts || (raw.halfOpenMaxAttempts <= 0 && cfg.maxHalfOpen == 1)
    ensures cfg.ratio == raw.failureRatio || (!(0.0 < raw.failureRatio <= 1.0) && cfg.ratio == 0.5)
    ensures cfg.minThroughput == raw.minimumThroughput || (raw.minimumThroughput <= 0 && cfg.minThroughput == 10)
    ensures cfg.sampling == 10_000_000 * raw.samplingDurationSeconds || (raw.samplingDurationSeconds <= 0 && cfg.sampling == 10_000_000 * 30)
  {
    Settings(TICKS_PER_SECOND * (if raw.recoveryTimeoutSeconds > 0 then raw.recoveryTimeoutSeconds else 30),
             if raw.halfOpenMaxAttempts > 0 then raw.halfOpenMaxAttempts else 1,
             if 0.0 < raw.failureRatio <= 1.0 then raw.failureRatio else 0.5,
             if raw.minimumThroughput > 0 then raw.minimumThroughput else 10,
             TICKS_PER_SECOND * (if raw.samplingDurationSeconds > 0 then raw.samplingDurationSeconds else 30))
  }

  datatype Outcome = Outcome(at: int, failed: bool)

  function Failures(outcomes: seq<Outcome>): nat {
    if outcomes == [] then 0 else (if outcomes[0].failed then 1 else 0) + Failures(outcomes[1..])
  }

  /** Enough outcomes, and enough of them failures. */
  predicate Trips(cfg: Settings, failures: int, count: nat)
    requires cfg.Valid()
  {
    count >= cfg.minThroughput && failures as real / count as real >= cfg.ratio
  }

  /** Enough of the outcomes, and the configured share of them failures. */
  ghost predicate TooManyFail(cfg: Settings, recent: seq<Outcome>) {
    |recent| >= cfg.minThroughput && Failures(recent) as real >= cfg.ratio * |recent| as real
  }

  lemma ShareIff(failures: real, count: real, ratio: real)
    requires count > 0.0
    ensures failures / count >= ratio <==> failures >= ratio * count
  {
    if failures / count >= ratio {
      assert (failures / count - ratio) * count >= 0.0;
    } else {
      assert (ratio - failures / count) * count > 0.0;
    }
  }

  lemma TripsIff(cfg: Settings, recent: seq<Outcome>)
    requires cfg.Valid()
    ensures Trips(cfg, Failures(recent), |recent|) <==> TooManyFail(cfg, recent)
  {
    if |recent| >= cfg.minThroughput {
      ShareIff(Failures(recent) as real, |recent| as real, cfg.ratio);
    }
  }

  // ----- one circuit -----

  datatype Sampled = Sampled(status: Status, openedAt: int, halfOpenRequests: int, samples: seq<Outcome>, sampleFailures: int)

  const FRESH := Sampled(Closed, 0, 0, [], 0)

  function TryAcquire(c: Sampled, cfg: Settings, now: int): (Sampled, bool) {
    if c.status == Open && now - c.openedAt < cfg.recovery then (c, false)
    else
      var probing := if c.status == Open then c.(status := HalfOpen, halfOpenRequests := 0) else c;
      if probing.status == Closed then (probing, true)
      else if probing.halfOpenRequests >= cfg.maxHalfOpen then (probing, false)
      else (probing.(halfOpenRequests := probing.halfOpenRequests + 1), true)
  }

  /** Outcomes at the front that are older than the cutoff are taken off. */
  function Purged(samples: seq<Outcome>, cutoff: int): seq<Outcome> {
    if samples != [] && samples[0].at < cutoff then Purged(samples[1..], cutoff) else samples
  }

  function RecordOutcome(c: Sampled, cfg: Settings, failed: bool, now: int): Sampled
    requires cfg.Valid()
  {
    match c.status
    case HalfOpen => if failed then c.(status := Open, openedAt := now, halfOpenRequests := 0) else Sampled(Closed, c.openedAt, 0, [], 0)
    case Open => c
    case Closed =>
      var all := c.samples + [Outcome(now, failed)];
      var samples := Purged(all, now - cfg.sampling);
      var failures := c.sampleFailures + (if failed then 1 else 0) - (Failures(all) - Failures(samples));
      var after := c.(samples := samples, sampleFailures := failures);
      if Trips(cfg, failures, |samples|) then after.(status := Open, openedAt := now) else after
  }

  lemma {:induction false} PurgedSuffix(samples: seq<Outcome>, cutoff: int)
    ensures |Purged(samples, cutoff)| <= |samples|
    ensures Purged(samples, cutoff) == samples[|samples| - |Purged(samples, cutoff)|..]
    decreases |samples|
  {
    if samples != [] && samples[0].at < cutoff {
      PurgedSuffix(samples[1..], cutoff);
    }
  }

  /** The circuit object of a destination. */
  class DestinationCircuit {
    var status: Status
    var openedAt: int
    var halfOpenRequests: int
    var samples: seq<Outcome>
    var sampleFailures: int

    ghost function State(): Sampled
      reads this
    {
      Sampled(status, openedAt, halfOpenRequests, samples, sampleFailures)
    }

    constructor ()
      ensures State() == FRESH
    {
      status, openedAt, halfOpenRequests, samples, sampleFailures := Closed, 0, 0, [], 0;
    }

    method Acquire(cfg: Settings, now: int) returns (acquired: bool)
      modifies this`status, this`halfOpenRequests
      ensures (State(), acquired) == TryAcquire(old(State()), cfg, now)
    {
      if status == Open {
        if now - openedAt < cfg.recovery {
          return false;
        }
        status := HalfOpen;
        halfOpenRequests := 0;
      }
      if status == HalfOpen {
        if halfOpenRequests >= cfg.maxHalfOpen {
          return false;
        }
        halfOpenRequests := halfOpenRequests + 1;
      }
      return true;
    }

    method Record(cfg: Settings, failed: bool, now: int)
      requires cfg.Valid()
      modifies this
      ensures State() == RecordOutcome(old(State()), cfg, failed, now)
    {
      if status == HalfOpen {
        if failed {
          status, openedAt, halfOpenRequests := Open, now, 0;
        } else {
          status, halfOpenRequests, samples, sampleFailures := Closed, 0, [], 0;
        }
        return;
      }
      if status != Closed {
        return;
      }
      samples := samples + [Outcome(now, failed)];
      if failed {
        sampleFailures := sampleFailures + 1;
      }
      DequeueOlder(now - cfg.sampling);
      if |samples| >= cfg.minThroughput && sampleFailures as real / |samples| as real >= cfg.ratio {
        status, openedAt := Open, now;
      }
    }

    method DequeueOlder(cutoff: int)
      modifies this`samples, this`sampleFailures
      ensures samples == Purged(old(samples), cutoff)
      ensures sampleFailures == old(sampleFailures) - (Failures(old(samples)) - Failures(samples))
    {
      while samples != [] && samples[0].at < cutoff
        invariant Purged(samples, cutoff) == Purged(old(samples), cutoff)
        invariant sampleFailures - Failures(samples) == old(sampleFailures - Failures(samples))
        decreases |samples|
      {
        var sample := samples[0];
        samples := samples[1..];
        if sample.failed {
          sampleFailures := sampleFailures - 1;
        }
      }
    }
  }

  // ----- runs of one circuit -----

  datatype Event = Ask(now: int) | Report(failed: bool, now: int)

  /** A circuit that keeps every outcome since it last closed. */
  datatype Logged = Logged(status: Status, openedAt: int, halfOpenRequests: int, log: seq<Outcome>)

  /** The outcomes within the sampling duration. */
  function Recent(log: seq<Outcome>, from: int): seq<Outcome> {
    if log == [] then [] else (if log[0].at >= from then [log[0]] else []) + Recent(log[1..], from)
  }

  /** Answered by the status alone; a closed one opens on the ratio among the recent outcomes of its log. */
  function LogStep(l: Logged, cfg: Settings, e: Event): Logged
    requires cfg.Valid()
  {
    match (l.status, e)
    case (Closed, Report(failed, now)) =>
      var log := l.log + [Outcome(now, failed)];
      var recent := Recent(log, now - cfg.sampling);
      if Trips(cfg, Failures(recent), |recent|) then Logged(Open, now, l.halfOpenRequests, log) else l.(log := log)
    case (HalfOpen, Report(failed, now)) => if failed then Logged(Open, now, 0, l.log) else Logged(Closed, l.openedAt, 0, [])
    case (Open, Report(_, _)) => l
    case (Closed, Ask(_)) => l
    case (Open, Ask(now)) => if now - l.openedAt < cfg.recovery then l else Logged(HalfOpen, l.openedAt, 1, l.log)
    case (HalfOpen, Ask(_)) => if l.halfOpenRequests >= cfg.maxHalfOpen then l else l.(halfOpenRequests := l.halfOpenRequests + 1)
  }

  function Step(c: Sampled, cfg: Settings, e: Event): Sampled
    requires cfg.Valid()
  {
    match e
    case Ask(now) => TryAcquire(c, cfg, now).0
    case Report(failed, now) => RecordOutcome(c, cfg, failed, now)
  }

  function Run(c: Sampled, cfg: Settings, events: seq<Event>): Sampled
    requires cfg.Valid()
    decreases |events|
  {
    if events == [] then c else Run(Step(c, cfg, events[0]), cfg, events[1..])
  }

  function LogRun(l: Logged, cfg: Settings, events: seq<Event>): Logged
    requires cfg.Valid()
    decreases |events|
  {
    if events == [] then l else LogRun(LogStep(l, cfg, events[0]), cfg, events[1..])
  }

  /** The clock does not run backwards. */
  predicate InOrder(last: int, events: seq<Event>)
    decreases |events|
  {
    events == [] || (events[0].now >= last && InOrder(events[0].now, events[1..]))
  }

  ghost predicate Ordered(log: seq<Outcome>) {
    forall i, j :: 0 <= i < j < |log| ==> log[i].at <= log[j].at
  }

  /** The queue is the recent part of the log as of its last outcome, and its failures are counted. */
  ghost predicate Tracks(c: Sampled, l: Logged, cfg: Settings, last: int) {
    && c.status == l.status && c.openedAt == l.openedAt && c.halfOpenRequests == l.halfOpenRequests
    && Ordered(l.log) && (l.log != [] ==> l.log[|l.log| - 1].at <= last)
    && c.samples == (if l.log == [] then [] else Recent(l.log, l.log[|l.log| - 1].at - cfg.sampling))
    && c.sampleFailures == Failures(c.samples)
  }

  lemma {:induction false} RecentAll(log: seq<Outcome>, from: int)
    requires forall x :: x in log ==> x.at >= from
    ensures Recent(log, from) == log
    decreases |log|
  {
    if log != [] {
      assert log[0] in log;
      RecentAll(log[1..], from);
    }
  }

  /** In an ordered log taking off the old ones at the front leaves the recent ones. */
  lemma {:induction false} PurgedIsRecent(log: seq<Outcome>, from: int)
    requires Ordered(log)
    ensures Purged(log, from) == Recent(log, from)
    decreases |log|
  {
    if log != [] {
      if log[0].at < from {
        PurgedIsRecent(log[1..], from);
      } else {
        forall x | x in log
          ensures x.at >= from
        {
          var i :| 0 <= i < |log| && log[i] == x;
        }
        RecentAll(log, from);
      }
    }
  }

  lemma RecentCons(x: Outcome, rest: seq<Outcome>, from: int)
    ensures Recent([x] + rest, from) == (if x.at >= from then [x] else []) + Recent(rest, from)
  {
    assert ([x] + rest)[1..] == rest;
  }

  /** What was too old before is too old later: only the recent ones have to be looked at again. */
  lemma {:induction false} RecentTwice(log: seq<Outcome>, x: Outcome, earlier: int, later: int)
    requires earlier <= later
    ensures Recent(Recent(log, earlier) + [x], later) == Recent(log + [x], later)
    decreases |log|
  {
    if log == [] {
      assert [] + [x] == [x];
    } else {
      var y, rest := log[0], log[1..];
      var tail := Recent(rest, earlier) + [x];
      RecentTwice(rest, x, earlier, later);
      assert log + [x] == [y] + (rest + [x]);
      RecentCons(y, rest + [x], later);
      if y.at >= earlier {
        assert Recent(log, earlier) + [x] == [y] + tail;
        RecentCons(y, tail, later);
      } else {
        assert Recent(log, earlier) + [x] == tail;
      }
    }
  }

  lemma {:induction false} RecentOrdered(log: seq<Outcome>, from: int)
    requires Ordered(log)
    ensures Ordered(Recent(log, from)) && forall x :: x in Recent(log, from) ==> x in log
    decreases |log|
  {
    if log != [] {
      RecentOrdered(log[1..], from);
      assert forall x :: x in log[1..] ==> log[0].at <= x.at;
    }
  }

  lemma {:induction false} FailuresSnoc(outcomes: seq<Outcome>, x: Outcome)
    ensures Failures(outcomes + [x]) == Failures(outcomes) + if x.failed then 1 else 0
    decreases |outcomes|
  {
    if outcomes == [] {
      assert [] + [x] == [x] && [x][1..] == [];
    } else {
      FailuresSnoc(outcomes[1..], x);
      assert (outcomes + [x])[1..] == outcomes[1..] + [x];
    }
  }

  lemma SnocOrdered(log: seq<Outcome>, x: Outcome)
    requires Ordered(log) && (log != [] ==> log[|log| - 1].at <= x.at)
    ensures Ordered(log + [x])
  {
  }

  lemma QueueOrdered(log: seq<Outcome>, from: int, x: Outcome)
    requires Ordered(log) && (log != [] ==> log[|log| - 1].at <= x.at)
    ensures Ordered(Recent(log, from) + [x])
  {
    var queue := Recent(log, from);
    RecentOrdered(log, from);
    if queue != [] {
      var y := queue[|queue| - 1];
      assert y in queue;
      var i :| 0 <= i < |log| && log[i] == y;
      assert y.at <= log[|log| - 1].at;
    }
    SnocOrdered(queue, x);
  }

  /** The queue after one more outcome. */
  lemma QueueTracks(log: seq<Outcome>, sampling: int, x: Outcome)
    requires Ordered(log) && (log != [] ==> log[|log| - 1].at <= x.at)
    ensures
      var queue := if log == [] then [] else Recent(log, log[|log| - 1].at - sampling);
      Purged(queue + [x], x.at - sampling) == Recent(log + [x], x.at - sampling)
  {
    if log == [] {
      SnocOrdered([], x);
      PurgedIsRecent([] + [x], x.at - sampling);
    } else {
      var from := log[|log| - 1].at - sampling;
      QueueOrdered(log, from, x);
      PurgedIsRecent(Recent(log, from) + [x], x.at - sampling);
      RecentTwice(log, x, from, x.at - sampling);
    }
  }

  /** By status alone: closed, recovered, or half-open with a probe left. */
  predicate LetsIn(l: Logged, cfg: Settings, now: int) {
    match l.status
    case Closed => true
    case Open => now - l.openedAt >= cfg.recovery
    case HalfOpen => l.halfOpenRequests < cfg.maxHalfOpen
  }

  lemma AskTracks(c: Sampled, l: Logged, cfg: Settings, last: int, now: int)
    requires cfg.Valid() && Tracks(c, l, cfg, last) && now >= last
    ensures Tracks(TryAcquire(c, cfg, now).0, LogStep(l, cfg, Ask(now)), cfg, now)
    ensures TryAcquire(c, cfg, now).1 <==> LetsIn(l, cfg, now)
  {
  }

  /** The queue and its failures after an outcome of a closed circuit, as of the log. */
  lemma ClosedReportQueue(c: Sampled, l: Logged, cfg: Settings, last: int, x: Outcome)
    requires cfg.Valid() && Tracks(c, l, cfg, last) && x.at >= last && c.status == Closed
    ensures
      var c', recent := RecordOutcome(c, cfg, x.failed, x.at), Recent(l.log + [x], x.at - cfg.sampling);
      && c'.samples == recent && c'.sampleFailures == Failures(recent)
      && c'.halfOpenRequests == c.halfOpenRequests
      && c'.status == (if Trips(cfg, Failures(recent), |recent|) then Open else Closed)
      && c'.openedAt == (if Trips(cfg, Failures(recent), |recent|) then x.at else c.openedAt)
  {
    QueueTracks(l.log, cfg.sampling, x);
    FailuresSnoc(c.samples, x);
    var all := c.samples + [x];
    var samples := Purged(all, x.at - cfg.sampling);
    assert c.sampleFailures + (if x.failed then 1 else 0) - (Failures(all) - Failures(samples)) == Failures(samples);
  }

  lemma ClosedReportTracks(c: Sampled, l: Logged, cfg: Settings, last: int, failed: bool, now: int)
    requires cfg.Valid() && Tracks(c, l, cfg, last) && now >= last && c.status == Closed
    ensures Tracks(RecordOutcome(c, cfg, failed, now), LogStep(l, cfg, Event.Report(failed, now)), cfg, now)
  {
    var x := Outcome(now, failed);
    ClosedReportQueue(c, l, cfg, last, x);
    SnocOrdered(l.log, x);
    assert (l.log + [x])[|l.log|] == x;
  }

  lemma StepTracks(c: Sampled, l: Logged, cfg: Settings, last: int, e: Event)
    requires cfg.Valid() && Tracks(c, l, cfg, last) && e.now >= last
    ensures Tracks(Step(c, cfg, e), LogStep(l, cfg, e), cfg, e.now)
  {
    match e
    case Ask(now) => AskTracks(c, l, cfg, last, now);
    case Report(failed, now) =>
      if c.status == Closed {
        ClosedReportTracks(c, l, cfg, last, failed, now);
      }
  }

  lemma {:induction false} RunTracks(c: Sampled, l: Logged, cfg: Settings, last: int, events: seq<Event>, e: Event) returns (now: int)
    requires cfg.Valid() && Tracks(c, l, cfg, last) && InOrder(last, events + [e])
    ensures now <= e.now && Tracks(Run(c, cfg, events), LogRun(l, cfg, events), cfg, now)
    decreases |events|
  {
    if events == [] {
      now := last;
      assert ([] + [e])[0] == e;
    } else {
      assert (events + [e])[1..] == events[1..] + [e] && (events + [e])[0] == events[0];
      StepTracks(c, l, cfg, last, events[0]);
      now := RunTracks(Step(c, cfg, events[0]), LogStep(l, cfg, events[0]), cfg, events[0].now, events[1..], e);
    }
  }

  lemma NextAnswered(c: Sampled, l: Logged, cfg: Settings, last: int, e: Event)
    requires cfg.Valid() && Tracks(c, l, cfg, last) && e.now >= last
    ensures e.Ask? ==> (TryAcquire(c, cfg, e.now).1 <==> LetsIn(l, cfg, e.now))
    ensures e.Report? && c.status == Closed ==>
              var recent := Recent(l.log + [Outcome(e.now, e.failed)], e.now - cfg.sampling);
              Step(c, cfg, e).status == Open <==> TooManyFail(cfg, recent)
  {
    match e
    case Ask(at) => AskTracks(c, l, cfg, last, at);
    case Report(failed, at) =>
      if c.status == Closed {
        ClosedReportQueue(c, l, cfg, last, Outcome(at, failed));
        TripsIff(cfg, Recent(l.log + [Outcome(at, failed)], at - cfg.sampling));
      }
  }

  const NO_OUTCOMES := Logged(Closed, 0, 0, [])

  /**
    After every run in which the clock does not run backwards the next event is answered as
    by a log of all outcomes since the circuit last closed: a request by the status, and an
    outcome opens a closed circuit exactly when among those of the sampling duration there
    are enough and enough of them are failures.
   */
  lemma RefinesLog(cfg: Settings, start: int, events: seq<Event>, e: Event)
    requires cfg.Valid() && InOrder(start, events + [e])
    ensures
      var (c, l) := (Run(FRESH, cfg, events), LogRun(NO_OUTCOMES, cfg, events));
      && c.status == l.status && c.openedAt == l.openedAt && c.halfOpenRequests == l.halfOpenRequests
      && (e.Ask? ==> (TryAcquire(c, cfg, e.now).1 <==> LetsIn(l, cfg, e.now)))
      && (e.Report? && c.status == Closed ==>
            var recent := Recent(l.log + [Outcome(e.now, e.failed)], e.now - cfg.sampling);
            Step(c, cfg, e).status == Open <==> TooManyFail(cfg, recent))
  {
    var c, l := Run(FRESH, cfg, events), LogRun(NO_OUTCOMES, cfg, events);
    var now := RunTracks(FRESH, NO_OUTCOMES, cfg, start, events, e);
    NextAnswered(c, l, cfg, now, e);
  }

  // ----- requests over all destinations -----

  /** A request, the destination it is sent to, if any, and how that ends. */
  datatype Request = Request(now: int, sentTo: Option<nat>, failed: bool, endsAt: int)

  function AskAll(circuits: seq<Sampled>, cfg: Settings, now: int): seq<Sampled> {
    seq(|circuits|, i requires 0 <= i < |circuits| => TryAcquire(circuits[i], cfg, now).0)
  }

  /** A destination is left to choose from exactly when its circuit lets the request in. */
  predicate Candidate(circuits: seq<Sampled>, cfg: Settings, now: int, i: nat) {
    i < |circuits| && TryAcquire(circuits[i], cfg, now).1
  }

  predicate Serveable(circuits: seq<Sampled>, cfg: Settings, r: Request) {
    r.sentTo.Some? ==> Candidate(circuits, cfg, r.now, r.sentTo.value)
  }

  /** All circuits are asked; only the one of the destination taken is told the outcome. */
  function Serve(circuits: seq<Sampled>, cfg: Settings, r: Request): seq<Sampled>
    requires cfg.Valid() && Serveable(circuits, cfg, r)
  {
    var asked := AskAll(circuits, cfg, r.now);
    match r.sentTo
    case None => asked
    case Some(i) => asked[i := RecordOutcome(asked[i], cfg, r.failed, r.endsAt)]
  }

  /**
    A request sent to a destination that is not closed decides: if it fails the destination
    gets nothing for the recovery time after its end, and everything if it succeeds.
   */
  lemma ProbeDecides(circuits: seq<Sampled>, cfg: Settings, r: Request, t: int)
    requires cfg.Valid() && r.sentTo.Some? && Serveable(circuits, cfg, r) && circuits[r.sentTo.value].status != Closed
    ensures
      var (i, after) := (r.sentTo.value, Serve(circuits, cfg, r));
      if r.failed then
        after[i].status == Open && after[i].openedAt == r.endsAt && (Candidate(after, cfg, t, i) <==> t - r.endsAt >= cfg.recovery)
      else after[i].status == Closed && after[i].samples == [] && Candidate(after, cfg, t, i)
  {
  }

  /** A request elsewhere, or nowhere, leaves a destination whose circuit is closed as it was. */
  lemma OthersAreLeft(circuits: seq<Sampled>, cfg: Settings, r: Request, i: nat)
    requires cfg.Valid() && Serveable(circuits, cfg, r) && i < |circuits| && r.sentTo != Some(i)
    ensures circuits[i].status == Closed ==> Serve(circuits, cfg, r)[i] == circuits[i]
  {
  }

  predicate AllServeable(circuits: seq<Sampled>, cfg: Settings, requests: seq<Request>)
    requires cfg.Valid()
    decreases |requests|
  {
    requests == [] || (Serveable(circuits, cfg, requests[0]) && AllServeable(Serve(circuits, cfg, requests[0]), cfg, requests[1..]))
  }

  function ServeAll(circuits: seq<Sampled>, cfg: Settings, requests: seq<Request>): seq<Sampled>
    requires cfg.Valid() && AllServeable(circuits, cfg, requests)
    decreases |requests|
  {
    if requests == [] then circuits else ServeAll(Serve(circuits, cfg, requests[0]), cfg, requests[1..])
  }

  /** Half-open, its probes used up, and no outcome to come. */
  predicate LockedOut(c: Sampled, cfg: Settings) {
    c.status == HalfOpen && c.halfOpenRequests >= cfg.maxHalfOpen
  }

  /** A destination that is locked out stays so, whatever requests come: none is sent there, so none reports. */
  lemma {:induction false} LockedOutForever(circuits: seq<Sampled>, cfg: Settings, i: nat, requests: seq<Request>)
    requires cfg.Valid() && i < |circuits| && LockedOut(circuits[i], cfg) && AllServeable(circuits, cfg, requests)
    ensures forall r :: r in requests ==> r.sentTo != Some(i)
    ensures |ServeAll(circuits, cfg, requests)| == |circuits| && ServeAll(circuits, cfg, requests)[i] == circuits[i]
    decreases |requests|
  {
    if requests != [] {
      LockedOutForever(Serve(circuits, cfg, requests[0]), cfg, i, requests[1..]);
      assert forall r :: r in requests <==> r == requests[0] || r in requests[1..];
    }
  }

  /**
    Requests that are sent elsewhere use up the probes of a half-open destination, which is
    locked out exactly when as many have come as it had probes left.
   */
  lemma {:induction false} PassedByLocksOutIff(circuits: seq<Sampled>, cfg: Settings, i: nat, requests: seq<Request>)
    requires cfg.Valid() && i < |circuits| && circuits[i].status == HalfOpen && circuits[i].halfOpenRequests <= cfg.maxHalfOpen
    requires AllServeable(circuits, cfg, requests) && forall r :: r in requests ==> r.sentTo != Some(i)
    ensures
      var after := ServeAll(circuits, cfg, requests);
      && |after| == |circuits|
      && after[i] == circuits[i].(halfOpenRequests := Min(cfg.maxHalfOpen, circuits[i].halfOpenRequests + |requests|))
      && (LockedOut(after[i], cfg) <==> |requests| >= cfg.maxHalfOpen - circuits[i].halfOpenRequests)
    decreases |requests|
  {
    if requests != [] {
      assert requests[0] in requests && forall r :: r in requests[1..] ==> r in requests;
      PassedByLocksOutIff(Serve(circuits, cfg, requests[0]), cfg, i, requests[1..]);
    }
  }

  /**
    Two destinations, one probe each: the first has been open for its recovery time when a
    request comes that is sent to the second and succeeds. The first is locked out for good.
   */
  lemma ProbeSpentElsewhere(cfg: Settings, later: seq<Request>)
    requires cfg.Valid() && cfg.maxHalfOpen == 1
    requires
      var circuits, r := [FRESH.(status := Open), FRESH], Request(cfg.recovery, Some(1), false, cfg.recovery);
      && Serveable(circuits, cfg, r) && AllServeable(Serve(circuits, cfg, r), cfg, later)
    ensures
      var circuits, r := [FRESH.(status := Open), FRESH], Request(cfg.recovery, Some(1), false, cfg.recovery);
      && Candidate(circuits, cfg, r.now, 0)
      && forall x :: x in later ==> x.sentTo != Some(0)
  {
    var circuits, r := [FRESH.(status := Open), FRESH], Request(cfg.recovery, Some(1), false, cfg.recovery);
    assert LockedOut(Serve(circuits, cfg, r)[0], cfg);
    LockedOutForever(Serve(circuits, cfg, r), cfg, 0, later);
  }
}
