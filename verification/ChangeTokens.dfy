/**
  Change sources under concurrent applies: a call reads the current source and its token,
  swaps in a new source under the lock, then cancels and disposes the one it replaced.
 */
module ChangeTokens {
  type Source = nat

  /** Where a thread is in a call; one whose call failed can make another. */
  datatype Phase =
    | Idle
    | HasRead(source: Source)
    | Ready
    | Replaced(source: Source)
    | Signalled(source: Source)
    | Failed

  /** `cancels` counts the cancellations of each source ever made; the last one is current. */
  datatype State = State(threads: seq<Phase>, cancels: seq<nat>, disposed: seq<bool>)

  datatype Event =
    | Read(thread: nat)
    | TakeToken(thread: nat)
    | Swap(thread: nat)
    | Cancel(thread: nat)
    | Dispose(thread: nat)

  function Current(s: State): Source
    requires s.cancels != []
  {
    |s.cancels| - 1
  }

  function Init(threads: nat): State {
    State(seq(threads, _ => Idle), [0], [false])
  }

  /** One step of a thread; an event its thread is not ready for changes nothing. */
  function Step(s: State, e: Event): State
    requires s.cancels != [] && |s.disposed| == |s.cancels|
    ensures Step(s, e).cancels != [] && |Step(s, e).disposed| == |Step(s, e).cancels| && |Step(s, e).threads| == |s.threads|
  {
    var t := e.thread;
    if t >= |s.threads| then s
    else match (e, s.threads[t])
      case (Read(_), Idle) => s.(threads := s.threads[t := HasRead(Current(s))])
      case (Read(_), Failed) => s.(threads := s.threads[t := HasRead(Current(s))])
      case (TakeToken(_), HasRead(src)) =>
        s.(threads := s.threads[t := if src < |s.disposed| && s.disposed[src] then Failed else Ready])
      case (Swap(_), Ready) =>
        State(s.threads[t := Replaced(Current(s))], s.cancels + [0], s.disposed + [false])
      case (Cancel(_), Replaced(src)) =>
        if src < |s.cancels| then
          s.(threads := s.threads[t := Signalled(src)], cancels := s.cancels[src := s.cancels[src] + 1])
        else s
      case (Dispose(_), Signalled(src)) =>
        if src < |s.disposed| then s.(threads := s.threads[t := Idle], disposed := s.disposed[src := true]) else s
      case _ => s
  }

  ghost predicate Held(s: State, src: Source) {
    exists t :: 0 <= t < |s.threads| && s.threads[t] == Replaced(src)
  }

  ghost predicate Inv(s: State) {
    && s.cancels != [] && |s.disposed| == |s.cancels|
    && (forall src :: 0 <= src < Current(s) ==> s.cancels[src] == if Held(s, src) then 0 else 1)
    && s.cancels[Current(s)] == 0 && !s.disposed[Current(s)]
    && (forall t :: 0 <= t < |s.threads| ==>
          match s.threads[t]
          case HasRead(src) => src <= Current(s)
          case Replaced(src) => src < Current(s)
          case Signalled(src) => src < Current(s) && s.cancels[src] == 1
          case _ => true)
    && (forall t, u :: 0 <= t < u < |s.threads| && s.threads[t].Replaced? ==> s.threads[t] != s.threads[u])
  }

  lemma InitInv(threads: nat)
    ensures Inv(Init(threads))
  {
  }

  lemma SwapKeeps(s: State, t: nat)
    requires Inv(s) && t < |s.threads| && s.threads[t] == Ready
    ensures Inv(Step(s, Swap(t)))
  {
    var s', c := Step(s, Swap(t)), Current(s);
    assert s'.threads[t] == Replaced(c);
    forall src | 0 <= src < c
      ensures Held(s', src) <==> Held(s, src)
    {
      if Held(s, src) {
        var u :| 0 <= u < |s.threads| && s.threads[u] == Replaced(src);
        assert s'.threads[u] == Replaced(src);
      }
    }
  }

  lemma CancelKeeps(s: State, t: nat)
    requires Inv(s) && t < |s.threads| && s.threads[t].Replaced?
    ensures Inv(Step(s, Cancel(t)))
  {
    var s', done := Step(s, Cancel(t)), s.threads[t].source;
    assert Held(s, done);
    assert !Held(s', done);
    forall src | 0 <= src < Current(s) && src != done
      ensures Held(s', src) <==> Held(s, src)
    {
      if Held(s, src) {
        var u :| 0 <= u < |s.threads| && s.threads[u] == Replaced(src);
        assert s'.threads[u] == Replaced(src);
      }
    }
  }

  lemma OtherKeeps(s: State, e: Event)
    requires Inv(s) && !e.Swap? && !e.Cancel?
    ensures Inv(Step(s, e))
  {
    var s' := Step(s, e);
    forall src | 0 <= src < Current(s)
      ensures Held(s', src) <==> Held(s, src)
    {
      if Held(s, src) {
        var u :| 0 <= u < |s.threads| && s.threads[u] == Replaced(src);
        assert s'.threads[u] == Replaced(src);
      }
    }
  }

  lemma StepKeeps(s: State, e: Event)
    requires Inv(s)
    ensures Inv(Step(s, e))
  {
    if e.Swap? {
      if e.thread < |s.threads| && s.threads[e.thread] == Ready {
        SwapKeeps(s, e.thread);
      }
    } else if e.Cancel? {
      if e.thread < |s.threads| && s.threads[e.thread].Replaced? {
        CancelKeeps(s, e.thread);
      }
    } else {
      OtherKeeps(s, e);
    }
  }

  function Run(s: State, events: seq<Event>): State
    requires s.cancels != [] && |s.disposed| == |s.cancels|
    ensures |Run(s, events).threads| == |s.threads|
    decreases |events|
  {
    if events == [] then s else Run(Step(s, events[0]), events[1..])
  }

  lemma {:induction false} RunKeeps(s: State, events: seq<Event>)
    requires Inv(s)
    ensures Inv(Run(s, events))
    decreases |events|
  {
    if events != [] {
      StepKeeps(s, events[0]);
      RunKeeps(Step(s, events[0]), events[1..]);
    }
  }

  /**
    Under every interleaving the current source is never cancelled, no source is cancelled
    twice, and every replaced source is cancelled once as soon as no call still holds it.
   */
  lemma CancelledExactlyOnce(threads: nat, events: seq<Event>)
    ensures
      var s := Run(Init(threads), events);
      && s.cancels != [] && s.cancels[Current(s)] == 0
      && (forall src :: 0 <= src < Current(s) ==> s.cancels[src] == if Held(s, src) then 0 else 1)
  {
    InitInv(threads);
    RunKeeps(Init(threads), events);
  }

  // ----- calls that fail -----

  lemma {:induction false} RunConcat(s: State, a: seq<Event>, b: seq<Event>)
    requires s.cancels != [] && |s.disposed| == |s.cancels|
    ensures Run(s, a).cancels != [] && |Run(s, a).disposed| == |Run(s, a).cancels|
    ensures Run(s, a + b) == Run(Run(s, a), b)
    decreases |a|
  {
    if a == [] {
      assert a + b == b;
    } else {
      RunConcat(Step(s, a[0]), a[1..], b);
      assert (a + b)[1..] == a[1..] + b;
    }
  }

  lemma RunOne(s: State, e: Event)
    requires s.cancels != [] && |s.disposed| == |s.cancels|
    ensures Run(s, [e]) == Step(s, e)
  {
    assert Run(s, [e]) == Run(Step(s, e), [e][1..]);
  }

  /** The event ends a call by disposing the source it replaced. */
  predicate Disposes(s: State, e: Event, src: Source) {
    e.Dispose? && e.thread < |s.threads| && s.threads[e.thread] == Signalled(src)
  }

  /** Some call disposes the source in the course of the events. */
  ghost predicate DisposedDuring(s: State, events: seq<Event>, src: Source)
    requires s.cancels != [] && |s.disposed| == |s.cancels|
  {
    exists k :: 0 <= k < |events| && Disposes(Run(s, events[..k]), events[k], src)
  }

  lemma DisposedSnoc(s: State, init: seq<Event>, last: Event, src: Source)
    requires s.cancels != [] && |s.disposed| == |s.cancels|
    ensures DisposedDuring(s, init + [last], src) <==> DisposedDuring(s, init, src) || Disposes(Run(s, init), last, src)
  {
    var events := init + [last];
    assert events[..|init|] == init;
    assert forall k :: 0 <= k < |init| ==> events[..k] == init[..k];
    if DisposedDuring(s, init, src) {
      var k :| 0 <= k < |init| && Disposes(Run(s, init[..k]), init[k], src);
      assert Disposes(Run(s, events[..k]), events[k], src);
    }
    if Disposes(Run(s, init), last, src) {
      assert Disposes(Run(s, events[..|init|]), events[|init|], src);
    }
  }

  lemma {:induction false} DisposedIff(s: State, events: seq<Event>, src: Source)
    requires Inv(s) && src <= Current(s)
    ensures Inv(Run(s, events)) && src <= Current(Run(s, events))
    ensures Run(s, events).disposed[src] <==> s.disposed[src] || DisposedDuring(s, events, src)
    decreases |events|
  {
    if events != [] {
      var init, last := events[..|events| - 1], events[|events| - 1];
      assert events == init + [last];
      DisposedIff(s, init, src);
      RunConcat(s, init, [last]);
      RunOne(Run(s, init), last);
      StepKeeps(Run(s, init), last);
      DisposedSnoc(s, init, last, src);
    }
  }

  /** What a thread has read it keeps until it takes the token. */
  lemma {:induction false} KeepsReading(s: State, events: seq<Event>, t: nat)
    requires Inv(s) && t < |s.threads| && s.threads[t].HasRead? && TakeToken(t) !in events
    ensures Run(s, events).threads[t] == s.threads[t]
    decreases |events|
  {
    if events != [] {
      StepKeeps(s, events[0]);
      assert events[0] in events;
      KeepsReading(Step(s, events[0]), events[1..], t);
    }
  }

  /** The events of one read and everything up to its token. */
  function UpToToken(before: seq<Event>, t: nat, between: seq<Event>): seq<Event> {
    before + [Read(t)] + between + [TakeToken(t)]
  }

  /**
    In every run from the start a call fails exactly when, between its reading the source
    and its taking the token, some call disposed that source; otherwise it goes on.
   */
  lemma TokenFailsIff(threads: nat, before: seq<Event>, t: nat, between: seq<Event>)
    requires t < threads && TakeToken(t) !in between
    requires Run(Init(threads), before).threads[t] in {Idle, Failed}
    ensures
      var was := Run(Init(threads), before);
      var phase := Run(Init(threads), UpToToken(before, t, between)).threads[t];
      && was.cancels != [] && |was.disposed| == |was.cancels|
      && (phase == Failed <==> DisposedDuring(Step(was, Read(t)), between, Current(was)))
      && (phase != Failed ==> phase == Ready)
  {
    var s0 := Run(Init(threads), before);
    InitInv(threads);
    RunKeeps(Init(threads), before);
    var s1 := Step(s0, Read(t));
    StepKeeps(s0, Read(t));
    var s2 := Run(s1, between);
    KeepsReading(s1, between, t);
    DisposedIff(s1, between, Current(s0));
    RunConcat(Init(threads), before, [Read(t)]);
    RunOne(s0, Read(t));
    RunConcat(Init(threads), before + [Read(t)], between);
    RunConcat(Init(threads), before + [Read(t)] + between, [TakeToken(t)]);
    RunOne(s2, TakeToken(t));
  }

  /** So a call during which no other disposes anything does not fail. */
  lemma UndisturbedCallSucceeds(threads: nat, before: seq<Event>, t: nat, between: seq<Event>)
    requires t < threads && TakeToken(t) !in between && forall e :: e in between ==> !e.Dispose?
    requires Run(Init(threads), before).threads[t] in {Idle, Failed}
    ensures Run(Init(threads), UpToToken(before, t, between)).threads[t] == Ready
  {
    TokenFailsIff(threads, before, t, between);
  }

  /** A whole call of the other thread. */
  const OTHER_CALL := [TakeToken(1), Swap(1), Cancel(1), Dispose(1)]

  lemma RunCons(s: State, e: Event, rest: seq<Event>)
    requires s.cancels != [] && |s.disposed| == |s.cancels|
    ensures Run(s, [e] + rest) == Run(Step(s, e), rest)
  {
    assert ([e] + rest)[1..] == rest;
  }

  function Two(first: Phase, second: Phase, cancels: seq<nat>, disposed: seq<bool>): State {
    State([first, second], cancels, disposed)
  }

  lemma OtherCallSwaps(rest: seq<Event>)
    ensures Run(Two(HasRead(0), HasRead(0), [0], [false]), [TakeToken(1)] + ([Swap(1)] + rest)) ==
            Run(Two(HasRead(0), Replaced(0), [0, 0], [false, false]), rest)
  {
    assert [0] + [0] == [0, 0] && [false] + [false] == [false, false];
    assert [HasRead(0), HasRead(0)][1 := Ready] == [HasRead(0), Ready];
    assert [HasRead(0), Ready][1 := Replaced(0)] == [HasRead(0), Replaced(0)];
    assert Step(Two(HasRead(0), HasRead(0), [0], [false]), TakeToken(1)) == Two(HasRead(0), Ready, [0], [false]);
    assert Step(Two(HasRead(0), Ready, [0], [false]), Swap(1)) == Two(HasRead(0), Replaced(0), [0, 0], [false, false]);
    RunCons(Two(HasRead(0), Ready, [0], [false]), Swap(1), rest);
    RunCons(Two(HasRead(0), HasRead(0), [0], [false]), TakeToken(1), [Swap(1)] + rest);
  }

  lemma OtherCallDisposes()
    ensures Run(Two(HasRead(0), HasRead(0), [0], [false]), OTHER_CALL) == Two(HasRead(0), Idle, [1, 0], [true, false])
  {
    assert [0, 0][0 := 1] == [1, 0] && [false, false][0 := true] == [true, false];
    RunOne(Two(HasRead(0), Signalled(0), [1, 0], [false, false]), Dispose(1));
    RunCons(Two(HasRead(0), Replaced(0), [0, 0], [false, false]), Cancel(1), [Dispose(1)]);
    OtherCallSwaps([Cancel(1)] + [Dispose(1)]);
    assert OTHER_CALL == [TakeToken(1)] + ([Swap(1)] + ([Cancel(1)] + [Dispose(1)]));
  }

  lemma BothRead()
    ensures Run(Init(2), [Read(0)] + [Read(1)]) == Two(HasRead(0), HasRead(0), [0], [false])
  {
    assert Init(2) == Two(Idle, Idle, [0], [false]);
    RunOne(Two(HasRead(0), Idle, [0], [false]), Read(1));
    RunCons(Init(2), Read(0), [Read(1)]);
  }

  /** From the start, two calls that read the first source: one of them ends before the other takes its token. */
  lemma OverlapFails()
    ensures Run(Init(2), UpToToken([], 0, [Read(1)] + OTHER_CALL)).threads == [Failed, Idle]
  {
    var end := Two(HasRead(0), Idle, [1, 0], [true, false]);
    BothRead();
    OtherCallDisposes();
    RunConcat(Init(2), [Read(0)] + [Read(1)], OTHER_CALL);
    RunConcat(Init(2), [Read(0)] + [Read(1)] + OTHER_CALL, [TakeToken(0)]);
    RunOne(end, TakeToken(0));
    assert UpToToken([], 0, [Read(1)] + OTHER_CALL) == [Read(0)] + [Read(1)] + OTHER_CALL + [TakeToken(0)];
    assert [HasRead(0), Idle][0 := Failed] == [Failed, Idle];
  }
}
