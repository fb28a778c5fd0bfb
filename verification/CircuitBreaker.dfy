/**
  One circuit of the breaker: admissions and completions of concurrent requests, each
  a transition under the circuit's lock, in any order. Times are clock ticks.
 */
module CircuitBreaker {
  import opened Wrappers

  datatype Status = Closed | Open | HalfOpen

  datatype Action = Proceed | RejectOpen | RejectHalfOpen

  /** The configured values as stored, and the ones in force after the defaults are applied. */
  datatype RawConfig = RawConfig(failureThreshold: int, recoveryTimeoutSeconds: int, halfOpenMaxAttempts: int)

  datatype Config = Config(threshold: int, recovery: int, maxHalfOpen: int) {
    predicate Valid() { threshold > 0 && recovery > 0 && maxHalfOpen > 0 }
  }

  const TICKS_PER_SECOND: int := 10_000_000

  function Effective(raw: RawConfig): (c: Config)
    ensures c.Valid()
    ensures c.threshold == raw.failureThreshold || (raw.failureThreshold <= 0 && c.threshold == 5)
    ensures c.recovery == 10_000_000 * raw.recoveryTimeoutSeconds || (raw.recoveryTimeoutSeconds <= 0 && c.recovery == 10_000_000 * 30)
    ensures c.maxHalfOpen == raw.halfOpenMaxAttempts || (raw.halfOpenMaxAttempts <= 0 && c.maxHalfOpen == 1)
  {
    Config(if raw.failureThreshold > 0 then raw.failureThreshold else 5,
           TICKS_PER_SECOND * (if raw.recoveryTimeoutSeconds > 0 then raw.recoveryTimeoutSeconds else 30),
           if raw.halfOpenMaxAttempts > 0 then raw.halfOpenMaxAttempts else 1)
  }

  datatype Circuit = Circuit(status: Status, failures: nat, openedAt: int, halfOpenRequests: nat)

  function Admit(c: Circuit, cfg: Config, now: int): (Circuit, Action) {
    match c.status
    case Open =>
      if now < c.openedAt + cfg.recovery then (c, RejectOpen)
      else (c.(status := HalfOpen, halfOpenRequests := 0), Proceed)
    case HalfOpen =>
      if c.halfOpenRequests >= cfg.maxHalfOpen then (c, RejectHalfOpen)
      else (c.(halfOpenRequests := c.halfOpenRequests + 1), Proceed)
    case Closed => (c, Proceed)
  }

  function Complete(c: Circuit, cfg: Config, failed: bool, now: int): Circuit {
    if failed then
      if c.status == HalfOpen || c.failures + 1 >= cfg.threshold then
        Circuit(Open, c.failures + 1, now, c.halfOpenRequests)
      else c.(failures := c.failures + 1)
    else
      c.(status := if c.status == HalfOpen then Closed else c.status, failures := 0)
  }

  /** The circuit object; every method is one critical section. */
  class CircuitState {
    var status: Status
    var consecutiveFailures: nat
    var failureThreshold: int
    var recoveryTimeout: int
    var maxHalfOpenAttempts: int
    var openedAt: int
    var halfOpenRequests: nat

    ghost function State(): Circuit
      reads this
    {
      Circuit(status, consecutiveFailures, openedAt, halfOpenRequests)
    }

    ghost function InForce(): Config
      reads this
    {
      Config(failureThreshold, recoveryTimeout, maxHalfOpenAttempts)
    }

    constructor (raw: RawConfig)
      ensures State() == Circuit(Closed, 0, 0, 0) && InForce() == Effective(raw)
    {
      status, consecutiveFailures, openedAt, halfOpenRequests := Closed, 0, 0, 0;
      failureThreshold, recoveryTimeout, maxHalfOpenAttempts := 0, 0, 0;
      new;
      ApplyConfig(raw);
    }

    method ApplyConfig(raw: RawConfig)
      modifies this`failureThreshold, this`recoveryTimeout, this`maxHalfOpenAttempts
      ensures InForce() == Effective(raw) && InForce().Valid()
    {
      failureThreshold := if raw.failureThreshold > 0 then raw.failureThreshold else 5;
      recoveryTimeout := TICKS_PER_SECOND * (if raw.recoveryTimeoutSeconds > 0 then raw.recoveryTimeoutSeconds else 30);
      maxHalfOpenAttempts := if raw.halfOpenMaxAttempts > 0 then raw.halfOpenMaxAttempts else 1;
    }

    method TryEnter(now: int) returns (action: Action)
      modifies this`status, this`halfOpenRequests
      ensures (State(), action) == Admit(old(State()), InForce(), now)
    {
      if status == Open {
        if now < openedAt + recoveryTimeout {
          action := RejectOpen;
        } else {
          status := HalfOpen;
          halfOpenRequests := 0;
          action := Proceed;
        }
      } else if status == HalfOpen {
        if halfOpenRequests >= maxHalfOpenAttempts {
          action := RejectHalfOpen;
        } else {
          halfOpenRequests := halfOpenRequests + 1;
          action := Proceed;
        }
      } else {
        action := Proceed;
      }
    }

    method UpdateCircuitState(failed: bool, now: int)
      modifies this`status, this`consecutiveFailures, this`openedAt
      ensures State() == Complete(old(State()), InForce(), failed, now)
    {
      if failed {
        consecutiveFailures := consecutiveFailures + 1;
        if status == HalfOpen {
          status := Open;
          openedAt := now;
        } else if consecutiveFailures >= failureThreshold {
          status := Open;
          openedAt := now;
        }
      } else {
        if status == HalfOpen {
          status := Closed;
          consecutiveFailures := 0;
        } else {
          consecutiveFailures := 0;
        }
      }
    }
  }

  // ----- runs -----

  /**
    An arriving request; the end of an admitted one that reached no destination and so
    reports to this circuit; the end of an admitted one whose outcome goes to the circuit
    of the destination it reached instead.
   */
  datatype Event = Arrive(now: int) | Report(failed: bool, now: int) | ReportElsewhere(now: int)

  datatype State = State(
    circuit: Circuit,
    last: int,             // the latest instant seen
    inFlight: nat,
    outcomes: seq<bool>,   // the reports in order; true is a failure
    admitted: nat,
    episodes: seq<nat>)    // admissions of each half-open episode, the current one last

  function Init(now: int): State {
    State(Circuit(Closed, 0, 0, 0), now, 0, [], 0, [])
  }

  function Bump(episodes: seq<nat>): seq<nat> {
    if episodes == [] then [] else episodes[..|episodes| - 1] + [episodes[|episodes| - 1] + 1]
  }

  function Next(s: State, cfg: Config, e: Event): Option<State> {
    if e.now < s.last then None
    else match e
      case Arrive(now) =>
        var (c, action) := Admit(s.circuit, cfg, now);
        if action != Proceed then Some(s.(circuit := c, last := now))
        else
          var episodes := if c.status != HalfOpen then s.episodes
                          else if s.circuit.status != HalfOpen then s.episodes + [1]
                          else Bump(s.episodes);
          Some(s.(circuit := c, last := now, inFlight := s.inFlight + 1, admitted := s.admitted + 1, episodes := episodes))
      case Report(failed, now) =>
        if s.inFlight == 0 then None
        else Some(s.(circuit := Complete(s.circuit, cfg, failed, now), last := now,
                     inFlight := s.inFlight - 1, outcomes := s.outcomes + [failed]))
      case ReportElsewhere(now) =>
        if s.inFlight == 0 then None else Some(s.(last := now, inFlight := s.inFlight - 1))
  }

  function Run(s: State, cfg: Config, events: seq<Event>): Option<State>
    decreases |events|
  {
    if events == [] then Some(s)
    else match Next(s, cfg, events[0])
      case None => None
      case Some(s') => Run(s', cfg, events[1..])
  }

  /** The length of the failing run at the end of the reports. */
  function TrailingFailures(outcomes: seq<bool>): nat {
    if outcomes == [] || !outcomes[|outcomes| - 1] then 0
    else TrailingFailures(outcomes[..|outcomes| - 1]) + 1
  }

  lemma TrailingSnoc(outcomes: seq<bool>, failed: bool)
    ensures TrailingFailures(outcomes + [failed]) == if failed then TrailingFailures(outcomes) + 1 else 0
  {
    assert (outcomes + [failed])[..|outcomes|] == outcomes;
  }

  ghost predicate Inv(s: State, cfg: Config) {
    && s.circuit.failures == TrailingFailures(s.outcomes)
    && (s.circuit.status == Closed ==> s.circuit.failures < cfg.threshold)
    && (s.circuit.status != Closed ==> s.circuit.openedAt <= s.last)
    && (forall i :: 0 <= i < |s.episodes| ==> 1 <= s.episodes[i] <= cfg.maxHalfOpen + 1)
    && (s.circuit.status == HalfOpen ==>
          && s.circuit.halfOpenRequests <= cfg.maxHalfOpen
          && |s.episodes| > 0 && s.episodes[|s.episodes| - 1] == s.circuit.halfOpenRequests + 1)
  }

  lemma ReportKeeps(s: State, cfg: Config, e: Event)
    requires cfg.Valid() && Inv(s, cfg) && e.Report? && Next(s, cfg, e).Some?
    ensures Inv(Next(s, cfg, e).value, cfg)
  {
    TrailingSnoc(s.outcomes, e.failed);
  }

  lemma EnterKeeps(s: State, cfg: Config, e: Event)
    requires cfg.Valid() && Inv(s, cfg) && !e.Report? && Next(s, cfg, e).Some?
    ensures Inv(Next(s, cfg, e).value, cfg)
  {
  }

  lemma StepKeeps(s: State, cfg: Config, e: Event)
    requires cfg.Valid() && Inv(s, cfg) && Next(s, cfg, e).Some?
    ensures Inv(Next(s, cfg, e).value, cfg)
  {
    match e
    case Report(_, _) => ReportKeeps(s, cfg, e);
    case _ => EnterKeeps(s, cfg, e);
  }

  lemma {:induction false} RunKeeps(s: State, cfg: Config, events: seq<Event>)
    requires cfg.Valid() && Inv(s, cfg) && Run(s, cfg, events).Some?
    ensures Inv(Run(s, cfg, events).value, cfg)
    decreases |events|
  {
    if events != [] {
      StepKeeps(s, cfg, events[0]);
      RunKeeps(Next(s, cfg, events[0]).value, cfg, events[1..]);
    }
  }

  // ----- the main results, for every interleaving -----

  /** The failure counter is the trailing failing run, and no half-open episode admits more than max + 1. */
  lemma CountersAndEpisodes(cfg: Config, start: int, events: seq<Event>)
    requires cfg.Valid() && Run(Init(start), cfg, events).Some?
    ensures
      var s := Run(Init(start), cfg, events).value;
      && s.circuit.failures == TrailingFailures(s.outcomes)
      && (forall i :: 0 <= i < |s.episodes| ==> s.episodes[i] <= cfg.maxHalfOpen + 1)
  {
    RunKeeps(Init(start), cfg, events);
  }

  /** In any reachable state a closed circuit opens exactly when the failing run reaches the threshold. */
  lemma ClosedOpensAtThreshold(cfg: Config, start: int, events: seq<Event>, e: Event)
    requires cfg.Valid() && Run(Init(start), cfg, events).Some?
    requires
      var s := Run(Init(start), cfg, events).value;
      s.circuit.status == Closed && Next(s, cfg, e).Some?
    ensures
      var s := Run(Init(start), cfg, events).value;
      var s' := Next(s, cfg, e).value;
      && (s'.circuit.status == Open <==> e.Report? && TrailingFailures(s'.outcomes) == cfg.threshold)
      && (s'.circuit.status == Open || s'.circuit.status == Closed)
  {
    RunKeeps(Init(start), cfg, events);
    var s := Run(Init(start), cfg, events).value;
    match e
    case Report(_, _) => ReportKeeps(s, cfg, e);
    case _ => EnterKeeps(s, cfg, e);
  }

  /**
    In any reachable state a report of failure to a half-open circuit opens it from that
    instant on, one of success closes it, and a closed one opens exactly when the failing
    run reaches the threshold, also from that instant on. An open one stays open, from the
    instant of the report when the failing run is at least the threshold.
   */
  lemma ReportIs(cfg: Config, start: int, events: seq<Event>, failed: bool, now: int)
    requires cfg.Valid() && Run(Init(start), cfg, events).Some?
    requires var s := Run(Init(start), cfg, events).value; s.inFlight > 0 && now >= s.last
    ensures
      var s := Run(Init(start), cfg, events).value;
      var next := Next(s, cfg, Report(failed, now));
      var run := TrailingFailures(s.outcomes + [failed]);
      && next.Some? && next.value.circuit.failures == run && next.value.circuit.halfOpenRequests == s.circuit.halfOpenRequests
      && next.value.circuit.status == (match s.circuit.status
                                       case HalfOpen => if failed then Open else Closed
                                       case Closed => if failed && run == cfg.threshold then Open else Closed
                                       case Open => Open)
      && next.value.circuit.openedAt == (if failed && (s.circuit.status == HalfOpen || run >= cfg.threshold) then now
                                         else s.circuit.openedAt)
      && next.value.admitted == s.admitted && next.value.inFlight == s.inFlight - 1
  {
    RunKeeps(Init(start), cfg, events);
    TrailingSnoc(Run(Init(start), cfg, events).value.outcomes, failed);
  }

  /**
    In any reachable state a request is let in by a closed circuit, by an open one from its
    recovery instant on, which makes that half-open with no probe counted yet, and by a
    half-open one while fewer than the most probes have been counted, and then counted.
   */
  lemma ArriveIs(cfg: Config, start: int, events: seq<Event>, now: int)
    requires cfg.Valid() && Run(Init(start), cfg, events).Some? && now >= Run(Init(start), cfg, events).value.last
    ensures
      var s := Run(Init(start), cfg, events).value;
      var next := Next(s, cfg, Arrive(now));
      var c, recovered := s.circuit, s.circuit.status == Open && now - s.circuit.openedAt >= cfg.recovery;
      var admitted := c.status == Closed || recovered || (c.status == HalfOpen && c.halfOpenRequests < cfg.maxHalfOpen);
      && next.Some? && next.value.admitted == s.admitted + (if admitted then 1 else 0)
      && next.value.inFlight == s.inFlight + (if admitted then 1 else 0)
      && next.value.circuit.status == (if recovered then HalfOpen else c.status)
      && next.value.circuit.halfOpenRequests ==
         (if recovered then 0 else if c.status == HalfOpen && admitted then c.halfOpenRequests + 1 else c.halfOpenRequests)
      && next.value.circuit.failures == c.failures && next.value.circuit.openedAt == c.openedAt
      && Admit(c, cfg, now).1 == (if admitted then Proceed else if c.status == Open then RejectOpen else RejectHalfOpen)
  {
    RunKeeps(Init(start), cfg, events);
  }

  /** So after a failed probe nothing is admitted for a whole recovery period, whatever else reports. */
  lemma FailedProbeWaitsAgain(cfg: Config, start: int, events: seq<Event>, now: int, later: seq<Event>)
    requires cfg.Valid() && Run(Init(start), cfg, events).Some?
    requires
      var s := Run(Init(start), cfg, events).value;
      && s.circuit.status == HalfOpen && s.inFlight > 0 && now >= s.last
      && Run(Next(s, cfg, Report(true, now)).value, cfg, later).Some?
    requires forall e :: e in later ==> e.now < now + cfg.recovery
    ensures
      var s := Run(Init(start), cfg, events).value;
      var end := Run(Next(s, cfg, Report(true, now)).value, cfg, later).value;
      end.circuit.status == Open && end.admitted == s.admitted
  {
    var s := Run(Init(start), cfg, events).value;
    ReportIs(cfg, start, events, true, now);
    NothingBeforeRecovery(Next(s, cfg, Report(true, now)).value, cfg, later);
  }

  /** From an open circuit nothing is admitted before its recovery instant, whatever completes meanwhile. */
  lemma {:induction false} NothingBeforeRecovery(s: State, cfg: Config, events: seq<Event>)
    requires cfg.Valid() && s.circuit.status == Open && s.circuit.openedAt <= s.last
    requires Run(s, cfg, events).Some?
    requires forall e :: e in events ==> e.now < s.circuit.openedAt + cfg.recovery
    ensures
      var s' := Run(s, cfg, events).value;
      s'.admitted == s.admitted && s'.circuit.status == Open && s'.circuit.openedAt >= s.circuit.openedAt
    decreases |events|
  {
    if events != [] {
      assert events[0] in events;
      assert forall e :: e in events[1..] ==> e in events;
      NothingBeforeRecovery(Next(s, cfg, events[0]).value, cfg, events[1..]);
    }
  }

  // ----- load on a dead backend -----

  predicate OnlyFailures(events: seq<Event>) {
    forall i :: 0 <= i < |events| && events[i].Report? ==> events[i].failed
  }

  /** How many recovery periods fit between two instants. */
  function Periods(from: int, to: int, recovery: int): int
    requires recovery > 0
  {
    (to - from) / recovery
  }

  lemma OnePeriodMore(from: int, since: int, now: int, recovery: int)
    requires recovery > 0 && now >= since + recovery
    ensures Periods(from, now, recovery) >= Periods(from, since, recovery) + 1
  {
    var p, q := Periods(from, since, recovery), Periods(from, now, recovery);
    QuotientBounds(since - from, recovery);
    QuotientBounds(now - from, recovery);
    assert q <= p ==> (q + 1) * recovery <= (p + 1) * recovery;
  }

  lemma QuotientMonotone(a: int, b: int, d: int)
    requires d > 0 && a <= b
    ensures a / d <= b / d
  {
    var p, q := a / d, b / d;
    QuotientBounds(a, d);
    QuotientBounds(b, d);
    assert q + 1 <= p ==> (q + 1) * d <= p * d;
  }

  lemma QuotientBounds(a: int, d: int)
    requires d > 0
    ensures (a / d) * d <= a < (a / d + 1) * d
    ensures (a / d + 1) * d == (a / d) * d + d
  {
  }

  /** The admissions allowed so far, given when the circuit opened first. */
  ghost predicate Throttled(s: State, cfg: Config, from: int, base: int)
    requires cfg.Valid()
  {
    match s.circuit.status
    case Closed => false
    case Open => s.admitted - base <= (cfg.maxHalfOpen + 1) * Periods(from, s.circuit.openedAt, cfg.recovery)
    case HalfOpen =>
      s.admitted - base + cfg.maxHalfOpen - s.circuit.halfOpenRequests
        <= (cfg.maxHalfOpen + 1) * Periods(from, s.last, cfg.recovery)
  }

  lemma ThrottledStep(s: State, cfg: Config, from: int, base: int, e: Event)
    requires cfg.Valid() && Inv(s, cfg) && Throttled(s, cfg, from, base)
    requires Next(s, cfg, e).Some? && (e.Report? ==> e.failed)
    ensures Throttled(Next(s, cfg, e).value, cfg, from, base)
  {
    var s' := Next(s, cfg, e).value;
    var q := cfg.maxHalfOpen + 1;
    QuotientMonotone(s.last - from, e.now - from, cfg.recovery);
    QuotientMonotone(s.circuit.openedAt - from, e.now - from, cfg.recovery);
    TimesMonotone(Periods(from, s.last, cfg.recovery), Periods(from, e.now, cfg.recovery), q);
    TimesMonotone(Periods(from, s.circuit.openedAt, cfg.recovery), Periods(from, e.now, cfg.recovery), q);
    if s.circuit.status == Open && s'.circuit.status == HalfOpen {
      OnePeriodMore(from, s.circuit.openedAt, e.now, cfg.recovery);
      TimesMonotone(Periods(from, s.circuit.openedAt, cfg.recovery) + 1, Periods(from, e.now, cfg.recovery), q);
      assert q * (Periods(from, s.circuit.openedAt, cfg.recovery) + 1) == q * Periods(from, s.circuit.openedAt, cfg.recovery) + q;
    }
  }

  lemma TimesMonotone(a: int, b: int, q: int)
    requires a <= b && q >= 0
    ensures q * a <= q * b
  {
  }

  lemma {:induction false} ThrottledRun(s: State, cfg: Config, from: int, base: int, events: seq<Event>)
    requires cfg.Valid() && Inv(s, cfg) && Throttled(s, cfg, from, base)
    requires Run(s, cfg, events).Some? && OnlyFailures(events)
    ensures Throttled(Run(s, cfg, events).value, cfg, from, base) && Inv(Run(s, cfg, events).value, cfg)
    decreases |events|
  {
    if events != [] {
      ThrottledStep(s, cfg, from, base, events[0]);
      StepKeeps(s, cfg, events[0]);
      assert forall i :: 0 <= i < |events[1..]| ==> events[1..][i] == events[i + 1];
      ThrottledRun(Next(s, cfg, events[0]).value, cfg, from, base, events[1..]);
    }
  }

  /**
    While every report is a failure, an open circuit lets through at most max + 1 requests
    per elapsed recovery period, in any interleaving.
   */
  lemma DeadBackendLoad(s: State, cfg: Config, events: seq<Event>)
    requires cfg.Valid() && Inv(s, cfg) && s.circuit.status == Open
    requires Run(s, cfg, events).Some? && OnlyFailures(events)
    ensures
      var s' := Run(s, cfg, events).value;
      s'.admitted - s.admitted <= (cfg.maxHalfOpen + 1) * Periods(s.circuit.openedAt, s'.last, cfg.recovery)
  {
    ZeroPeriods(s.circuit.openedAt, cfg.recovery);
    ThrottledRun(s, cfg, s.circuit.openedAt, s.admitted, events);
    var s' := Run(s, cfg, events).value;
    ThrottledSoFar(s', cfg, s.circuit.openedAt, s.admitted);
  }

  lemma ZeroPeriods(from: int, recovery: int)
    requires recovery > 0
    ensures Periods(from, from, recovery) == 0
  {
  }

  lemma ThrottledSoFar(s: State, cfg: Config, from: int, base: int)
    requires cfg.Valid() && Inv(s, cfg) && Throttled(s, cfg, from, base)
    ensures s.admitted - base <= (cfg.maxHalfOpen + 1) * Periods(from, s.last, cfg.recovery)
  {
    if s.circuit.status == Open {
      QuotientMonotone(s.circuit.openedAt - from, s.last - from, cfg.recovery);
      TimesMonotone(Periods(from, s.circuit.openedAt, cfg.recovery), Periods(from, s.last, cfg.recovery), cfg.maxHalfOpen + 1);
    }
  }

  // ----- the half-open lock-out -----

  /** Half-open, its probes used up, and none of them left to report here. */
  predicate Stuck(s: State, cfg: Config) {
    s.circuit.status == HalfOpen && s.circuit.halfOpenRequests >= cfg.maxHalfOpen && s.inFlight == 0
  }

  /** A stuck circuit stays so: whatever happens later, every request is rejected. */
  lemma {:induction false} StuckForever(s: State, cfg: Config, events: seq<Event>)
    requires Stuck(s, cfg) && Run(s, cfg, events).Some?
    ensures
      var s' := Run(s, cfg, events).value;
      Stuck(s', cfg) && s'.admitted == s.admitted && s'.circuit == s.circuit
    decreases |events|
  {
    if events != [] {
      StuckForever(Next(s, cfg, events[0]).value, cfg, events[1..]);
    }
  }

  lemma RunCons(s: State, cfg: Config, e: Event, rest: seq<Event>)
    requires Next(s, cfg, e).Some?
    ensures Run(s, cfg, [e] + rest) == Run(Next(s, cfg, e).value, cfg, rest)
  {
    assert ([e] + rest)[1..] == rest;
  }

  /**
    Half-open probing is meant to find out whether the backend is back; a half-open circuit
    can still close exactly when it is not stuck.
   */
  lemma CanCloseIffNotStuck(s: State, cfg: Config)
    requires cfg.Valid() && s.circuit.status == HalfOpen
    ensures (exists events :: Run(s, cfg, events).Some? && Run(s, cfg, events).value.circuit.status == Closed)
            <==> !Stuck(s, cfg)
  {
    if Stuck(s, cfg) {
      forall events | Run(s, cfg, events).Some?
        ensures Run(s, cfg, events).value.circuit.status != Closed
      {
        StuckForever(s, cfg, events);
      }
    } else if s.inFlight > 0 {
      RunCons(s, cfg, Report(false, s.last), []);
      assert Run(s, cfg, [Report(false, s.last)] + []).value.circuit.status == Closed;
    } else {
      var s1 := Next(s, cfg, Arrive(s.last)).value;
      RunCons(s1, cfg, Report(false, s.last), []);
      RunCons(s, cfg, Arrive(s.last), [Report(false, s.last)] + []);
      assert Run(s, cfg, [Arrive(s.last)] + ([Report(false, s.last)] + [])).value.circuit.status == Closed;
    }
  }

  /** The lock-out is reachable: two probes that succeed at a destination report elsewhere. */
  lemma LockOutIsReachable()
    ensures
      var cfg := Config(1, 10, 1);
      var r := Run(Init(0), cfg, [Arrive(0), Report(true, 0), Arrive(10), Arrive(10), ReportElsewhere(11), ReportElsewhere(11)]);
      r.Some? && Stuck(r.value, cfg)
  {
    var cfg := Config(1, 10, 1);
    var s1 := Next(Init(0), cfg, Arrive(0)).value;
    var s2 := Next(s1, cfg, Report(true, 0)).value;
    var s3 := Next(s2, cfg, Arrive(10)).value;
    var s4 := Next(s3, cfg, Arrive(10)).value;
    var s5 := Next(s4, cfg, ReportElsewhere(11)).value;
    assert s4.circuit == Circuit(HalfOpen, 1, 0, 1) && s4.inFlight == 2;
    RunCons(s5, cfg, ReportElsewhere(11), []);
    RunCons(s4, cfg, ReportElsewhere(11), [ReportElsewhere(11)]);
    RunCons(s3, cfg, Arrive(10), [ReportElsewhere(11), ReportElsewhere(11)]);
    RunCons(s2, cfg, Arrive(10), [Arrive(10), ReportElsewhere(11), ReportElsewhere(11)]);
    RunCons(s1, cfg, Report(true, 0), [Arrive(10), Arrive(10), ReportElsewhere(11), ReportElsewhere(11)]);
    RunCons(Init(0), cfg, Arrive(0), [Report(true, 0), Arrive(10), Arrive(10), ReportElsewhere(11), ReportElsewhere(11)]);
  }
}
