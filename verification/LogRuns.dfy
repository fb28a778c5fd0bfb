/**
  Runs of the log persistence pipeline, event by event: which entries the channel takes,
  how far a batch fills, when a batch is given up, and what makes the consumer drain.
 */
module LogRuns {
  import opened LogPipeline
  import opened Wrappers

  // ----- what the channel takes -----

  lemma {:induction false} CompletedIff<T>(s: State<T>, events: seq<Event<T>>)
    requires Run(s, events).Some?
    ensures Run(s, events).value.completed <==> s.completed || Complete in events
    decreases |events|
  {
    if events != [] {
      assert Next(s, events[0]).value.completed <==> s.completed || events[0] == Complete;
      CompletedIff(Next(s, events[0]).value, events[1..]);
      assert events == [events[0]] + events[1..];
    }
  }

  /** In every run an entry is accepted exactly while the channel has room and was not completed. */
  lemma AcceptedIff<T>(capacity: nat, events: seq<Event<T>>, entry: T)
    requires Run(Init<T>(capacity), events).Some?
    ensures Run(Init<T>(capacity), events + [Add(entry)]).Some?
    ensures
      var s, s' := Run(Init<T>(capacity), events).value, Run(Init<T>(capacity), events + [Add(entry)]).value;
      && s'.offered == s.offered + [(entry, Complete !in events && |s.queue| < capacity)]
      && s'.history == s.history && InHand(s') == InHand(s)
  {
    RunAppend(Init<T>(capacity), events, Add(entry));
    RunKeepsCapacity(Init<T>(capacity), events);
    CompletedIff(Init<T>(capacity), events);
  }

  // ----- how far a batch fills -----

  /** Taking n entries: the first one the consumer waits for, the others while they come. */
  function Reads<T>(n: nat): seq<Event<T>> {
    if n == 0 then [] else if n == 1 then [ReadFirst] else Reads(n - 1) + [ReadMore]
  }

  lemma {:induction false} FillsUpTo<T>(s: State<T>, n: nat)
    requires s.phase == Waiting && 1 <= n <= |s.queue| && n <= 100
    ensures Run(s, Reads(n)) == Some(s.(batch := s.queue[..n], queue := s.queue[n..], phase := Filling))
  {
    if n == 1 {
      assert [s.queue[0]] == s.queue[..1];
      RunAppend(s, [], ReadFirst);
      assert [] + [ReadFirst] == Reads<T>(1);
    } else {
      FillsUpTo(s, n - 1);
      RunAppend(s, Reads(n - 1), ReadMore);
      assert s.queue[..n - 1] + [s.queue[n - 1..][0]] == s.queue[..n] && s.queue[n - 1..][1..] == s.queue[n..];
    }
  }

  lemma {:induction false} RunPrefix<T>(s: State<T>, a: seq<Event<T>>, b: seq<Event<T>>)
    requires Run(s, a).None?
    ensures Run(s, a + b).None?
    decreases |a|
  {
    assert (a + b)[0] == a[0] && (a + b)[1..] == a[1..] + b;
    if Next(s, a[0]).Some? {
      RunPrefix(Next(s, a[0]).value, a[1..], b);
    }
  }

  /**
    A waiting consumer can take any number of queued entries into one batch up to a
    hundred and no more, and takes the oldest ones in order.
   */
  lemma {:induction false} FillsExactly<T>(s: State<T>, n: nat)
    requires s.phase == Waiting && 1 <= n <= |s.queue|
    ensures Run(s, Reads(n)).Some? <==> n <= 100
    ensures n <= 100 ==> Run(s, Reads(n)) == Some(s.(batch := s.queue[..n], queue := s.queue[n..], phase := Filling))
  {
    if n <= 100 {
      FillsUpTo(s, n);
    } else if n == 101 {
      FillsUpTo(s, 100);
      RunAppend(s, Reads(100), ReadMore);
    } else {
      FillsExactly(s, n - 1);
      RunPrefix(s, Reads(n - 1), [ReadMore]);
    }
  }

  // ----- when a batch is given up -----

  /** The writes that threw since the flush the run is in began. */
  function Throws<T>(events: seq<Event<T>>): nat {
    if events == [] then 0
    else
      var before := Throws(events[..|events| - 1]);
      match events[|events| - 1]
      case FillEnds => 0
      case DrainRead => 0
      case DrainEmpty => 0
      case WriteFails => before + 1
      case _ => before
  }

  /** The attempt a phase is at, if it is one of a flush. */
  ghost predicate AtAttempt(p: Phase, throws: nat) {
    match p
    case Flushing(a) => a == throws + 1
    case DrainFlushing(a, _) => a == throws + 1
    case BackingOff(a) => a == throws
    case DrainBackingOff(a, _) => a == throws
    case _ => true
  }

  lemma AttemptStep<T>(s: State<T>, e: Event<T>, throws: nat)
    requires AtAttempt(s.phase, throws) && Next(s, e).Some?
    ensures AtAttempt(Next(s, e).value.phase,
                      if e.FillEnds? || e.DrainRead? || e.DrainEmpty? then 0
                      else if e.WriteFails? then throws + 1 else throws)
  {
  }

  lemma {:induction false} AttemptIs<T>(s: State<T>, events: seq<Event<T>>)
    requires s.phase == Idle && Run(s, events).Some?
    ensures AtAttempt(Run(s, events).value.phase, Throws(events))
  {
    if events != [] {
      var init, e := events[..|events| - 1], events[|events| - 1];
      assert events == init + [e];
      RunSnoc(s, init, e);
      AttemptIs(s, init);
      AttemptStep(Run(s, init).value, e, Throws(init));
    }
  }

  /**
    In every run a batch is given up exactly by the third write of its flush that throws;
    the first two leave it in hand to be tried again, in the drain as before it.
   */
  lemma GivesUpIff<T>(capacity: nat, events: seq<Event<T>>)
    requires Run(Init<T>(capacity), events + [WriteFails]).Some?
    ensures Run(Init<T>(capacity), events).Some? && Throws(events) <= 2
    ensures
      var s, s' := Run(Init<T>(capacity), events).value, Run(Init<T>(capacity), events + [WriteFails]).value;
      && (Throws(events) == 2 ==> s'.history == s.history + [Batch(InHand(s), Failed)] && InHand(s') == [])
      && (Throws(events) < 2 ==> s'.history == s.history && InHand(s') == InHand(s))
  {
    RunSnoc(Init<T>(capacity), events, WriteFails);
    RunKeeps(Init<T>(capacity), events);
    AttemptIs(Init<T>(capacity), events);
  }

  // ----- what makes the consumer drain -----

  /** A request to stop, a completed channel, or an exception of the clean-up after a flush. */
  predicate EndsTheLoop<T>(e: Event<T>) {
    e.Stop? || e.Complete? || e.CleanupThrows?
  }

  /** A consumer goes on waiting, filling and writing until something ends its loop, whatever its writes do. */
  lemma {:induction false} KeepsConsuming<T>(s: State<T>, events: seq<Event<T>>)
    requires BeforeDrain(s.phase) && !s.cancelRequested && !s.completed
    requires Run(s, events).Some? && forall e :: e in events ==> !EndsTheLoop(e)
    ensures
      var s' := Run(s, events).value;
      BeforeDrain(s'.phase) && !s'.cancelRequested && !s'.completed
    decreases |events|
  {
    if events != [] {
      assert events[0] in events;
      KeepsConsuming(Next(s, events[0]).value, events[1..]);
    }
  }

  /** What a consumer does not return from: the wait or a flush was cancelled, the channel ended, or the clean-up threw. */
  predicate LeavesTheLoop<T>(e: Event<T>) {
    e.WaitEnds? || e.WaitCancelled? || e.WriteCancelled? || e.BackoffCancelled? || e.CleanupThrows?
  }

  /** From then on, until another consumer is started, it only drains. */
  lemma LoopIsOver<T>(s: State<T>, e: Event<T>, events: seq<Event<T>>)
    requires LeavesTheLoop(e) && Next(s, e).Some? && Run(Next(s, e).value, events).Some? && Start !in events
    ensures !BeforeDrain(Run(Next(s, e).value, events).value.phase)
  {
    StaysOver(Next(s, e).value, events);
  }

  lemma {:induction false} StaysOver<T>(s: State<T>, events: seq<Event<T>>)
    requires !BeforeDrain(s.phase) && Run(s, events).Some? && Start !in events
    ensures !BeforeDrain(Run(s, events).value.phase)
    decreases |events|
  {
    if events != [] {
      assert events[0] in events;
      OverStep(s, events[0]);
      StaysOver(Next(s, events[0]).value, events[1..]);
    }
  }

  lemma OverStep<T>(s: State<T>, e: Event<T>)
    requires !BeforeDrain(s.phase) && Next(s, e).Some? && e != Start
    ensures !BeforeDrain(Next(s, e).value.phase)
  {
  }

  /** A consumer in its loop can always come to wait again: by writing what it holds, if it holds anything. */
  lemma ReturnsToWait<T>(s: State<T>) returns (events: seq<Event<T>>)
    requires BeforeDrain(s.phase)
    ensures Run(s, events).Some?
    ensures
      var s' := Run(s, events).value;
      && s'.phase == Waiting && s'.queue == s.queue
      && s'.history == s.history + if s.phase.Waiting? || s.phase.Flushed? then [] else [Batch(s.batch, Written)]
  {
    match s.phase
    case Waiting =>
      events := [];
    case Flushed =>
      RunAppend(s, [], CleanupOk);
      events := [] + [CleanupOk];
    case Flushing(_) =>
      events := Writes(s, []);
    case Filling =>
      RunAppend(s, [], FillEnds);
      events := Writes(s, [] + [FillEnds]);
    case BackingOff(_) =>
      RunAppend(s, [], BackoffEnds);
      events := Writes(s, [] + [BackoffEnds]);
  }

  lemma Writes<T>(s: State<T>, events: seq<Event<T>>) returns (all: seq<Event<T>>)
    requires Run(s, events).Some?
    requires
      var now := Run(s, events).value;
      now.phase.Flushing? && now.queue == s.queue && now.history == s.history && now.batch == s.batch
    ensures Run(s, all).Some?
    ensures
      var s' := Run(s, all).value;
      s'.phase == Waiting && s'.queue == s.queue && s'.history == s.history + [Batch(s.batch, Written)]
  {
    all := (events + [WriteOk]) + [CleanupOk];
    RunAppend(s, events, WriteOk);
    RunAppend(s, events + [WriteOk], CleanupOk);
  }

  /** Draining, and while nothing is added to the channel not past the point where it was found empty. */
  predicate Drains<T>(s: State<T>) {
    s.phase.Draining? || ((s.phase.DrainFlushing? || s.phase.DrainBackingOff?) && (s.phase.last ==> s.queue == []))
  }

  function StepsLeft(p: Phase): nat {
    match p
    case DrainBackingOff(_, false) => 4
    case DrainFlushing(_, false) => 3
    case Draining => 2
    case DrainBackingOff(_, true) => 1
    case _ => 0
  }

  function NextOfDrain<T>(s: State<T>): Event<T> {
    match s.phase
    case Draining => if s.queue == [] then DrainEmpty else DrainRead
    case DrainBackingOff(_, _) => BackoffEnds
    case _ => WriteOk
  }

  lemma DrainGoesOn<T>(s: State<T>)
    requires PhaseOk(s) && Drains(s)
    ensures Next(s, NextOfDrain(s)).Some?
    ensures
      var s' := Next(s, NextOfDrain(s)).value;
      && s'.offered == s.offered && (s'.phase == Idle ==> s.queue == s'.queue == [])
      && (s'.phase != Idle ==>
            Drains(s') && (|s'.queue| < |s.queue| || (s'.queue == s.queue && StepsLeft(s'.phase) < StepsLeft(s.phase))))
  {
  }

  /**
    A drain can always end, wherever it is, whatever attempts of its flush have failed: with
    the channel empty and everything accepted in a finished batch.
   */
  lemma {:induction false} DrainCanEnd<T>(s: State<T>) returns (events: seq<Event<T>>)
    requires Inv(s) && Drains(s)
    ensures Run(s, events).Some?
    ensures
      var s' := Run(s, events).value;
      s'.phase == Idle && s'.queue == [] && s'.offered == s.offered && Taken(s'.offered, true) == Flatten(s'.history)
    decreases |s.queue|, StepsLeft(s.phase)
  {
    var e := NextOfDrain(s);
    DrainGoesOn(s);
    StepKeeps(s, e);
    var s' := Next(s, e).value;
    var rest: seq<Event<T>> := [];
    if s'.phase == Idle {
      assert Flatten(s'.history) + [] + [] == Flatten(s'.history);
    } else {
      rest := DrainCanEnd(s');
    }
    RunCons(s, e, rest);
    events := [e] + rest;
  }

  /** While the drain goes on only full batches are written; the last one may be smaller. */
  ghost predicate DrainsFull<T>(s: State<T>) {
    (s.phase.DrainFlushing? || s.phase.DrainBackingOff?) && !s.phase.last ==> |s.batch| == 100
  }

  lemma {:induction false} DrainBatchesAreFull<T>(s: State<T>, events: seq<Event<T>>)
    requires PhaseOk(s) && DrainsFull(s) && Run(s, events).Some?
    ensures DrainsFull(Run(s, events).value)
    decreases |events|
  {
    if events != [] {
      PhaseStep(s, events[0]);
      DrainStep(s, events[0]);
      DrainBatchesAreFull(Next(s, events[0]).value, events[1..]);
    }
  }

  lemma PhaseStep<T>(s: State<T>, e: Event<T>)
    requires PhaseOk(s) && Next(s, e).Some?
    ensures PhaseOk(Next(s, e).value)
  {
  }

  lemma DrainStep<T>(s: State<T>, e: Event<T>)
    requires PhaseOk(s) && DrainsFull(s) && Next(s, e).Some?
    ensures DrainsFull(Next(s, e).value)
  {
  }

  /**
    What a drain does not settle: the entry 8 is accepted while the last batch is written,
    after the channel was found empty, and stays in the channel when the consumer has ended.
   */
  lemma EntryAfterLastDrainStays()
    ensures
      var events := [Start, Add(7), Stop, WaitCancelled, DrainRead, DrainEmpty, Add(8), WriteOk];
      var r := Run(Init<int>(1000), events);
      && r.Some? && r.value.phase == Idle && r.value.queue == [8]
      && r.value.history == [Batch([7], Written)] && r.value.droppedCount == 0
  {
    FirstStopped([WaitCancelled, DrainRead, DrainEmpty] + [Add(8), WriteOk]);
    var s3 := State(1000, [7], false, Waiting, [], true, 0, 0, [(7, true)], [], 1);
    ThenDrained(s3, 7, [Add(8), WriteOk]);
    AddedAtLast(s3.(phase := DrainFlushing(1, true), batch := [7], queue := []), 8);
    assert [Start, Add(7), Stop] + ([WaitCancelled, DrainRead, DrainEmpty] + [Add(8), WriteOk])
        == [Start, Add(7), Stop, WaitCancelled, DrainRead, DrainEmpty, Add(8), WriteOk];
  }

  lemma FirstStopped(rest: seq<Event<int>>)
    ensures Run(Init<int>(1000), [Start, Add(7), Stop] + rest) ==
            Run(State(1000, [7], false, Waiting, [], true, 0, 0, [(7, true)], [], 1), rest)
  {
    var s1 := Init<int>(1000).(phase := Waiting);
    var s2 := s1.(queue := [7], offered := [(7, true)]);
    assert s1.queue + [7] == [7] && s1.offered + [(7, true)] == [(7, true)];
    assert Next(Init<int>(1000), Start) == Some(s1) && Next(s1, Add(7)) == Some(s2);
    RunThree(Init<int>(1000), Start, Add(7), Stop, rest);
  }

  lemma ThenDrained<T>(s: State<T>, x: T, rest: seq<Event<T>>)
    requires s.phase == Waiting && s.cancelRequested && s.queue == [x]
    ensures Run(s, [WaitCancelled, DrainRead, DrainEmpty] + rest) ==
            Run(s.(phase := DrainFlushing(1, true), batch := [x], queue := []), rest)
  {
    var s1 := s.(phase := Draining, batch := []);
    var s2 := s1.(batch := [x], queue := []);
    assert s1.batch + [s1.queue[0]] == [x] && s1.queue[1..] == [];
    assert Next(s, WaitCancelled) == Some(s1) && Next(s1, DrainRead) == Some(s2);
    assert Next(s2, DrainEmpty) == Some(s2.(phase := DrainFlushing(1, true)));
    RunThree(s, WaitCancelled, DrainRead, DrainEmpty, rest);
  }

  lemma AddedAtLast<T>(s: State<T>, x: T)
    requires s.phase == DrainFlushing(1, true) && !s.completed && |s.queue| < s.capacity
    ensures
      var r := Run(s, [Add(x), WriteOk]);
      && r.Some? && r.value.phase == Idle && r.value.queue == s.queue + [x]
      && r.value.history == s.history + [Batch(s.batch, Written)] && r.value.droppedCount == s.droppedCount
  {
    RunAppend(s, [], Add(x));
    RunAppend(s, [] + [Add(x)], WriteOk);
    assert ([] + [Add(x)]) + [WriteOk] == [Add(x), WriteOk];
  }
}
