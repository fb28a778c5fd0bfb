/**
  The log persistence pipeline as a state machine: producers add entries to a bounded
  channel while one consumer batches them, writes each batch with up to three tries,
  and on cancellation drains what is left. Events interleave freely; a batch write is
  all or nothing.
 */
module LogPipeline {
  import opened Wrappers

  const BATCH_SIZE: nat := 100
  const MAX_ATTEMPTS: nat := 3

  datatype Outcome = Written | Failed | Cancelled

  datatype Batch<T> = Batch(entries: seq<T>, outcome: Outcome)

  /** Where the consumer task is. `last` marks the flush after the final drain found the channel empty. */
  datatype Phase =
    | Idle
    | Waiting
    | Filling
    | Flushing(attempt: nat)
    | BackingOff(attempt: nat)
    | Flushed
    | Draining
    | DrainFlushing(attempt: nat, last: bool)
    | DrainBackingOff(attempt: nat, last: bool)

  datatype State<T> = State(
    capacity: nat,
    queue: seq<T>,
    completed: bool,
    phase: Phase,
    batch: seq<T>,            // the consumer's list; stale once its flush is over
    cancelRequested: bool,
    writtenCount: nat,
    droppedCount: nat,
    // what happened so far
    offered: seq<(T, bool)>,  // every entry added with persistence on, and whether the channel took it
    history: seq<Batch<T>>,   // every batch the consumer is done with
    stops: nat)               // consumer tasks that were asked to stop

  function Init<T>(capacity: nat): State<T> {
    State(capacity, [], false, Idle, [], false, 0, 0, [], [], 0)
  }

  datatype Event<T> =
    | Add(entry: T)
    | Complete
    | Start
    | Stop
    | ReadFirst
    | ReadMore
    | FillEnds          // the batch is full, the 500 ms are over, or the channel completed
    | WaitEnds          // the channel is completed and empty
    | WaitCancelled
    | WriteOk
    | WriteFails
    | WriteCancelled
    | BackoffEnds
    | BackoffCancelled
    | CleanupOk         // not due, or done
    | CleanupThrows     // any exception, cancellation included
    | DrainRead
    | DrainEmpty

  function Finish<T>(s: State<T>, outcome: Outcome, next: Phase): State<T> {
    s.(history := s.history + [Batch(s.batch, outcome)],
       writtenCount := s.writtenCount + if outcome == Written then |s.batch| else 0,
       phase := next)
  }

  /** After the drain flush the list is cleared, or the consumer is over. */
  function AfterDrainFlush(last: bool): Phase {
    if last then Idle else Draining
  }

  /** The state after an event, or None when the event cannot happen. */
  function Next<T>(s: State<T>, e: Event<T>): Option<State<T>> {
    match e
    case Add(entry) =>
      if !s.completed && |s.queue| < s.capacity then
        Some(s.(queue := s.queue + [entry], offered := s.offered + [(entry, true)]))
      else
        Some(s.(droppedCount := s.droppedCount + 1, offered := s.offered + [(entry, false)]))
    case Complete => Some(s.(completed := true))
    case Start => Some(if s.phase == Idle then s.(phase := Waiting, batch := [], cancelRequested := false) else s)
    case Stop =>
      Some(if s.phase != Idle && !s.cancelRequested then s.(cancelRequested := true, stops := s.stops + 1) else s)
    case ReadFirst =>
      if s.phase == Waiting && s.queue != [] then
        Some(s.(batch := [s.queue[0]], queue := s.queue[1..], phase := Filling))
      else None
    case ReadMore =>
      if s.phase == Filling && |s.batch| < BATCH_SIZE && s.queue != [] then
        Some(s.(batch := s.batch + [s.queue[0]], queue := s.queue[1..]))
      else None
    case FillEnds => if s.phase == Filling then Some(s.(phase := Flushing(1))) else None
    case WaitEnds =>
      if s.phase == Waiting && s.completed && s.queue == [] then Some(s.(phase := Draining, batch := [])) else None
    case WaitCancelled =>
      if s.phase == Waiting && s.cancelRequested then Some(s.(phase := Draining, batch := [])) else None
    case WriteOk =>
      (match s.phase
       case Flushing(_) => Some(Finish(s, Written, Flushed))
       case DrainFlushing(_, last) => Some(Finish(s, Written, AfterDrainFlush(last)).(batch := []))
       case _ => None)
    case WriteFails =>
      (match s.phase
       case Flushing(a) =>
         Some(if a < MAX_ATTEMPTS then s.(phase := BackingOff(a)) else Finish(s, Failed, Flushed))
       case DrainFlushing(a, last) =>
         Some(if a < MAX_ATTEMPTS then s.(phase := DrainBackingOff(a, last))
              else Finish(s, Failed, AfterDrainFlush(last)).(batch := []))
       case _ => None)
    case WriteCancelled =>
      if s.phase.Flushing? && s.cancelRequested then Some(Finish(s, Cancelled, Draining).(batch := [])) else None
    case BackoffEnds =>
      (match s.phase
       case BackingOff(a) => Some(s.(phase := Flushing(a + 1)))
       case DrainBackingOff(a, last) => Some(s.(phase := DrainFlushing(a + 1, last)))
       case _ => None)
    case BackoffCancelled =>
      if s.phase.BackingOff? && s.cancelRequested then Some(Finish(s, Cancelled, Draining).(batch := [])) else None
    case CleanupOk => if s.phase == Flushed then Some(s.(phase := Waiting)) else None
    case CleanupThrows => if s.phase == Flushed then Some(s.(phase := Draining, batch := [])) else None
    case DrainRead =>
      if s.phase == Draining && s.queue != [] then
        var batch := s.batch + [s.queue[0]];
        Some(s.(batch := batch, queue := s.queue[1..],
                phase := if |batch| < BATCH_SIZE then Draining else DrainFlushing(1, false)))
      else None
    case DrainEmpty =>
      if s.phase == Draining && s.queue == [] then
        Some(s.(phase := if |s.batch| > 0 then DrainFlushing(1, true) else Idle))
      else None
  }

  function Run<T>(s: State<T>, events: seq<Event<T>>): Option<State<T>>
    decreases |events|
  {
    if events == [] then Some(s)
    else match Next(s, events[0])
      case None => None
      case Some(s') => Run(s', events[1..])
  }

  // ----- what is conserved -----

  function Taken<T>(offered: seq<(T, bool)>, accepted: bool): seq<T> {
    if offered == [] then []
    else (if offered[0].1 == accepted then [offered[0].0] else []) + Taken(offered[1..], accepted)
  }

  function Flatten<T>(history: seq<Batch<T>>): seq<T> {
    if history == [] then [] else history[0].entries + Flatten(history[1..])
  }

  /** The entries of the batches that ended with a given outcome. */
  function EntriesWith<T>(history: seq<Batch<T>>, outcome: Outcome): seq<T> {
    if history == [] then []
    else (if history[0].outcome == outcome then history[0].entries else []) + EntriesWith(history[1..], outcome)
  }

  function CountWith<T>(history: seq<Batch<T>>, outcome: Outcome): nat {
    if history == [] then 0
    else (if history[0].outcome == outcome then 1 else 0) + CountWith(history[1..], outcome)
  }

  /** The entries the consumer holds and has not finished with. */
  function InHand<T>(s: State<T>): seq<T> {
    match s.phase
    case Idle => []
    case Waiting => []
    case Flushed => []
    case _ => s.batch
  }

  ghost predicate BeforeDrain(p: Phase) {
    p.Waiting? || p.Filling? || p.Flushing? || p.BackingOff? || p.Flushed?
  }

  ghost predicate PhaseOk<T>(s: State<T>) {
    && |s.batch| <= BATCH_SIZE
    && (s.phase.Filling? || s.phase.Flushing? || s.phase.BackingOff? || s.phase.DrainFlushing? || s.phase.DrainBackingOff?
        ==> |s.batch| >= 1)
    && (s.phase == Draining ==> |s.batch| < BATCH_SIZE)
    && (s.phase.Flushing? || s.phase.DrainFlushing? ==> 1 <= s.phase.attempt <= MAX_ATTEMPTS)
    && (s.phase.BackingOff? || s.phase.DrainBackingOff? ==> 1 <= s.phase.attempt < MAX_ATTEMPTS)
  }

  /** Every accepted entry is, in channel order, in a finished batch, in hand, or queued. */
  ghost predicate Conserved<T>(s: State<T>) {
    Taken(s.offered, true) == Flatten(s.history) + InHand(s) + s.queue
  }

  ghost predicate Inv<T>(s: State<T>) {
    && PhaseOk(s)
    && Conserved(s)
    && |s.queue| <= s.capacity
    && (forall b :: b in s.history ==> 1 <= |b.entries| <= BATCH_SIZE)
    && s.writtenCount == |EntriesWith(s.history, Written)|
    && s.droppedCount == |Taken(s.offered, false)|
    && CountWith(s.history, Cancelled) <= s.stops
    && (BeforeDrain(s.phase) && s.cancelRequested ==> CountWith(s.history, Cancelled) < s.stops)
  }

  // ----- how the recursive measures grow -----

  lemma {:induction false} TakenSnoc<T>(offered: seq<(T, bool)>, x: (T, bool), accepted: bool)
    ensures Taken(offered + [x], accepted) == Taken(offered, accepted) + if x.1 == accepted then [x.0] else []
  {
    if offered == [] {
      assert offered + [x] == [x];
      assert [x][1..] == [];
    } else {
      TakenSnoc(offered[1..], x, accepted);
      assert (offered + [x])[1..] == offered[1..] + [x];
    }
  }

  lemma {:induction false} FlattenSnoc<T>(history: seq<Batch<T>>, b: Batch<T>)
    ensures Flatten(history + [b]) == Flatten(history) + b.entries
  {
    if history == [] {
      assert history + [b] == [b];
    } else {
      FlattenSnoc(history[1..], b);
      assert (history + [b])[1..] == history[1..] + [b];
    }
  }

  lemma {:induction false} EntriesSnoc<T>(history: seq<Batch<T>>, b: Batch<T>, outcome: Outcome)
    ensures EntriesWith(history + [b], outcome) ==
            EntriesWith(history, outcome) + if b.outcome == outcome then b.entries else []
  {
    if history == [] {
      assert history + [b] == [b];
    } else {
      EntriesSnoc(history[1..], b, outcome);
      assert (history + [b])[1..] == history[1..] + [b];
    }
  }

  lemma {:induction false} CountSnoc<T>(history: seq<Batch<T>>, b: Batch<T>, outcome: Outcome)
    ensures CountWith(history + [b], outcome) == CountWith(history, outcome) + if b.outcome == outcome then 1 else 0
  {
    if history == [] {
      assert history + [b] == [b];
    } else {
      CountSnoc(history[1..], b, outcome);
      assert (history + [b])[1..] == history[1..] + [b];
    }
  }

  // ----- every step keeps the invariant -----

  lemma FinishKeeps<T>(s: State<T>, outcome: Outcome, next: Phase)
    requires Inv(s) && |s.batch| >= 1 && InHand(s) == s.batch
    requires outcome == Cancelled ==> BeforeDrain(s.phase) && s.cancelRequested
    ensures
      var h := Finish(s, outcome, next).history;
      && Taken(s.offered, true) == Flatten(h) + [] + s.queue
      && (forall b :: b in h ==> 1 <= |b.entries| <= BATCH_SIZE)
      && Finish(s, outcome, next).writtenCount == |EntriesWith(h, Written)|
      && CountWith(h, Cancelled) <= s.stops
      && (outcome != Cancelled ==> CountWith(h, Cancelled) == CountWith(s.history, Cancelled))
  {
    var b := Batch(s.batch, outcome);
    FlattenSnoc(s.history, b);
    EntriesSnoc(s.history, b, Written);
    CountSnoc(s.history, b, Cancelled);
    var done := Flatten(s.history) + s.batch;
    assert done + [] == done;
  }

  /** The events that move one entry from the channel into the consumer's hand. */
  lemma ReadKeeps<T>(s: State<T>, e: Event<T>)
    requires Inv(s) && (e.ReadFirst? || e.ReadMore? || e.DrainRead?) && Next(s, e).Some?
    ensures Inv(Next(s, e).value)
  {
    ReadConserves(s, e);
  }

  lemma ReadConserves<T>(s: State<T>, e: Event<T>)
    requires Inv(s) && (e.ReadFirst? || e.ReadMore? || e.DrainRead?) && Next(s, e).Some?
    ensures Conserved(Next(s, e).value)
  {
    var s' := Next(s, e).value;
    MovesOne(Flatten(s.history), InHand(s), s.queue);
    assert InHand(s') == InHand(s) + [s.queue[0]];
  }

  lemma MovesOne<T>(done: seq<T>, hand: seq<T>, queue: seq<T>)
    requires queue != []
    ensures done + hand + queue == done + (hand + [queue[0]]) + queue[1..]
  {
    assert queue == [queue[0]] + queue[1..];
  }

  lemma EndKeeps<T>(s: State<T>, e: Event<T>)
    requires Inv(s) && Next(s, e).Some?
    requires e.WriteOk? || (e.WriteFails? && s.phase.attempt >= MAX_ATTEMPTS)
    ensures Inv(Next(s, e).value)
  {
    var s' := Next(s, e).value;
    FinishKeeps(s, if e.WriteOk? then Written else Failed, s'.phase);
    assert InHand(s') == [];
  }

  lemma CancelKeeps<T>(s: State<T>, e: Event<T>)
    requires Inv(s) && Next(s, e).Some? && (e.WriteCancelled? || e.BackoffCancelled?)
    ensures Inv(Next(s, e).value)
  {
    FinishKeeps(s, Cancelled, Draining);
    assert InHand(Next(s, e).value) == [];
  }

  /** The events that end a flush with some outcome. */
  lemma FlushKeeps<T>(s: State<T>, e: Event<T>)
    requires Inv(s) && Next(s, e).Some?
    requires e.WriteOk? || (e.WriteFails? && s.phase.attempt >= MAX_ATTEMPTS) || e.WriteCancelled? || e.BackoffCancelled?
    ensures Inv(Next(s, e).value)
  {
    if e.WriteCancelled? || e.BackoffCancelled? {
      CancelKeeps(s, e);
    } else {
      EndKeeps(s, e);
    }
  }

  /** The events that move no entry. */
  lemma OtherKeeps<T>(s: State<T>, e: Event<T>)
    requires Inv(s) && Next(s, e).Some?
    requires !e.Add? && !e.ReadFirst? && !e.ReadMore? && !e.DrainRead?
    requires !e.WriteOk? && !e.WriteCancelled? && !e.BackoffCancelled?
    requires e.WriteFails? ==> s.phase.attempt < MAX_ATTEMPTS
    ensures Inv(Next(s, e).value)
  {
    OtherPhaseOk(s, e);
    OtherMovesNothing(s, e);
  }

  lemma OtherMovesNothing<T>(s: State<T>, e: Event<T>)
    requires PhaseOk(s) && Next(s, e).Some?
    requires !e.Add? && !e.ReadFirst? && !e.ReadMore? && !e.DrainRead?
    requires !e.WriteOk? && !e.WriteCancelled? && !e.BackoffCancelled?
    requires e.WriteFails? ==> s.phase.attempt < MAX_ATTEMPTS
    ensures
      var s' := Next(s, e).value;
      && InHand(s') == InHand(s) && s'.offered == s.offered && s'.history == s.history && s'.queue == s.queue
      && s'.capacity == s.capacity && s'.writtenCount == s.writtenCount && s'.droppedCount == s.droppedCount
      && s'.stops >= s.stops
      && (BeforeDrain(s'.phase) && s'.cancelRequested ==> s'.stops > s.stops || (BeforeDrain(s.phase) && s.cancelRequested))
  {
  }

  lemma OtherPhaseOk<T>(s: State<T>, e: Event<T>)
    requires PhaseOk(s) && Next(s, e).Some?
    requires !e.Add? && !e.ReadFirst? && !e.ReadMore? && !e.DrainRead?
    requires !e.WriteOk? && !e.WriteCancelled? && !e.BackoffCancelled?
    requires e.WriteFails? ==> s.phase.attempt < MAX_ATTEMPTS
    ensures PhaseOk(Next(s, e).value)
  {
  }

  lemma StepKeeps<T>(s: State<T>, e: Event<T>)
    requires Inv(s) && Next(s, e).Some?
    ensures Inv(Next(s, e).value)
  {
    if e.Add? {
      var ok := !s.completed && |s.queue| < s.capacity;
      TakenSnoc(s.offered, (e.entry, ok), true);
      TakenSnoc(s.offered, (e.entry, ok), false);
      assert Flatten(s.history) + InHand(s) + s.queue + [e.entry] == Flatten(s.history) + InHand(s) + (s.queue + [e.entry]);
    } else if e.ReadFirst? || e.ReadMore? || e.DrainRead? {
      ReadKeeps(s, e);
    } else if e.WriteOk? || (e.WriteFails? && s.phase.attempt >= MAX_ATTEMPTS) || e.WriteCancelled? || e.BackoffCancelled? {
      FlushKeeps(s, e);
    } else {
      OtherKeeps(s, e);
    }
  }

  lemma {:induction false} RunKeeps<T>(s: State<T>, events: seq<Event<T>>)
    requires Inv(s) && Run(s, events).Some?
    ensures Inv(Run(s, events).value)
    decreases |events|
  {
    if events != [] {
      StepKeeps(s, events[0]);
      RunKeeps(Next(s, events[0]).value, events[1..]);
    }
  }

  // ----- the main results -----

  lemma {:induction false} OfferedSplit<T>(offered: seq<(T, bool)>)
    ensures |Taken(offered, true)| + |Taken(offered, false)| == |offered|
  {
    if offered != [] {
      OfferedSplit(offered[1..]);
    }
  }

  lemma {:induction false} OutcomesPartition<T>(history: seq<Batch<T>>)
    ensures multiset(Flatten(history)) ==
            multiset(EntriesWith(history, Written)) + multiset(EntriesWith(history, Failed)) + multiset(EntriesWith(history, Cancelled))
  {
    if history != [] {
      OutcomesPartition(history[1..]);
    }
  }

  lemma {:induction false} CancelledAtMost<T>(history: seq<Batch<T>>)
    requires forall b :: b in history ==> |b.entries| <= BATCH_SIZE
    ensures |EntriesWith(history, Cancelled)| <= CountWith(history, Cancelled) * BATCH_SIZE
  {
    if history != [] {
      assert forall b :: b in history[1..] ==> b in history;
      CancelledAtMost(history[1..]);
      assert history[0] in history;
    }
  }

  /**
    Conservation, in every state any interleaving can reach: each offered entry was
    dropped at the channel (and counted), is queued, is in the consumer's hand, was
    written (and counted), was in a batch that failed three times, or was in one of the
    batches, at most one of at most 100 entries per stop, that a stop cancelled.
   */
  lemma Conservation<T>(capacity: nat, events: seq<Event<T>>)
    requires Run(Init<T>(capacity), events).Some?
    ensures
      var s := Run(Init<T>(capacity), events).value;
      && |s.offered| == |Taken(s.offered, true)| + s.droppedCount
      && multiset(Taken(s.offered, true)) ==
         multiset(EntriesWith(s.history, Written)) + multiset(EntriesWith(s.history, Failed))
         + multiset(EntriesWith(s.history, Cancelled)) + multiset(InHand(s)) + multiset(s.queue)
      && s.writtenCount == |EntriesWith(s.history, Written)|
      && CountWith(s.history, Cancelled) <= s.stops
      && |EntriesWith(s.history, Cancelled)| <= CountWith(s.history, Cancelled) * BATCH_SIZE
      && |InHand(s)| <= BATCH_SIZE && |s.queue| <= capacity
  {
    RunKeeps(Init<T>(capacity), events);
    RunKeepsCapacity(Init<T>(capacity), events);
    var s := Run(Init<T>(capacity), events).value;
    OfferedSplit(s.offered);
    OutcomesPartition(s.history);
    CancelledAtMost(s.history);
  }

  lemma {:induction false} RunKeepsCapacity<T>(s: State<T>, events: seq<Event<T>>)
    requires Run(s, events).Some?
    ensures Run(s, events).value.capacity == s.capacity
    decreases |events|
  {
    if events != [] {
      RunKeepsCapacity(Next(s, events[0]).value, events[1..]);
    }
  }

  /** Where batch i starts in the channel order. */
  function Offset<T>(history: seq<Batch<T>>, i: nat): nat
    requires i <= |history|
  {
    |Flatten(history[..i])|
  }

  lemma {:induction false} FlattenAt<T>(history: seq<Batch<T>>, i: nat)
    requires i < |history|
    ensures Offset(history, i + 1) == Offset(history, i) + |history[i].entries| <= |Flatten(history)|
    ensures Flatten(history)[Offset(history, i)..Offset(history, i + 1)] == history[i].entries
  {
    assert history[..i + 1] == history[..i] + [history[i]];
    FlattenSnoc(history[..i], history[i]);
    assert history == history[..i + 1] + history[i + 1..];
    FlattenConcat(history[..i + 1], history[i + 1..]);
  }

  lemma FlattenCons<T>(b: Batch<T>, rest: seq<Batch<T>>)
    ensures Flatten([b] + rest) == b.entries + Flatten(rest)
  {
    assert ([b] + rest)[1..] == rest;
  }

  lemma Associates<T>(a: seq<T>, b: seq<T>, c: seq<T>)
    ensures a + (b + c) == (a + b) + c
  {
  }

  lemma {:induction false} FlattenConcat<T>(a: seq<Batch<T>>, b: seq<Batch<T>>)
    ensures Flatten(a + b) == Flatten(a) + Flatten(b)
  {
    if a == [] {
      assert a + b == b;
    } else {
      var head, tail := a[0], a[1..];
      FlattenConcat(tail, b);
      FlattenCons(head, tail + b);
      assert [head] + (tail + b) == a + b;
      Associates(head.entries, Flatten(tail), Flatten(b));
    }
  }

  /**
    Order and uniqueness: the finished batches are consecutive slices of the sequence
    the channel accepted, so writes keep channel order and no accepted position is
    written twice.
   */
  lemma WritesKeepChannelOrder<T>(capacity: nat, events: seq<Event<T>>, i: nat)
    requires Run(Init<T>(capacity), events).Some?
    requires i < |Run(Init<T>(capacity), events).value.history|
    ensures
      var s := Run(Init<T>(capacity), events).value;
      var accepted := Taken(s.offered, true);
      && Offset(s.history, i) < Offset(s.history, i + 1) <= |accepted|
      && accepted[Offset(s.history, i)..Offset(s.history, i + 1)] == s.history[i].entries
  {
    RunKeeps(Init<T>(capacity), events);
    var s := Run(Init<T>(capacity), events).value;
    FlattenAt(s.history, i);
    assert s.history[i] in s.history;
    var accepted, all := Taken(s.offered, true), Flatten(s.history);
    assert accepted[..|all|] == all;
    assert accepted[Offset(s.history, i)..Offset(s.history, i + 1)] ==
           accepted[..|all|][Offset(s.history, i)..Offset(s.history, i + 1)];
  }

  /** When every offered entry is different, nothing is written twice. */
  lemma NothingWrittenTwice<T>(capacity: nat, events: seq<Event<T>>, x: T)
    requires Run(Init<T>(capacity), events).Some?
    requires multiset(Taken(Run(Init<T>(capacity), events).value.offered, true))[x] <= 1
    ensures multiset(EntriesWith(Run(Init<T>(capacity), events).value.history, Written))[x] <= 1
  {
    Conservation(capacity, events);
  }

  /** When a drain ends with nothing in hand, every entry accepted so far has met its outcome. */
  lemma DrainSettlesAll<T>(capacity: nat, events: seq<Event<T>>)
    requires Run(Init<T>(capacity), events + [DrainEmpty]).Some?
    ensures
      var s := Run(Init<T>(capacity), events + [DrainEmpty]).value;
      && s.queue == []
      && (s.phase == Idle ==> Taken(s.offered, true) == Flatten(s.history))
  {
    RunKeeps(Init<T>(capacity), events + [DrainEmpty]);
    RunSnoc(Init<T>(capacity), events, DrainEmpty);
    var s := Run(Init<T>(capacity), events + [DrainEmpty]).value;
    assert Flatten(s.history) + [] + [] == Flatten(s.history);
  }

  /** The consumer has ended, or is writing its last batch after it found the channel empty. */
  predicate Resting<T>(s: State<T>) {
    s.phase == Idle || ((s.phase.DrainFlushing? || s.phase.DrainBackingOff?) && s.phase.last)
  }

  ghost predicate RestsThroughout<T>(s: State<T>, events: seq<Event<T>>)
    requires Run(s, events).Some?
    decreases |events|
  {
    Resting(s) && (events == [] || RestsThroughout(Next(s, events[0]).value, events[1..]))
  }

  /** To rest, a consumer must have found the channel empty while draining. */
  lemma ComesToRest<T>(s: State<T>, e: Event<T>)
    requires PhaseOk(s) && Next(s, e).Some? && Resting(Next(s, e).value) && !Resting(s)
    ensures s.phase == Draining && s.queue == []
  {
  }

  /** At rest, and coming to it, the consumer takes nothing more; what it ends with is what it held. */
  lemma RestTakesNothing<T>(s: State<T>, e: Event<T>)
    requires Next(s, e).Some? && Resting(Next(s, e).value)
    requires Resting(s) || (s.phase == Draining && s.queue == [])
    ensures
      var s' := Next(s, e).value;
      || (s'.history == s.history && InHand(s') == InHand(s))
      || (InHand(s') == [] && exists outcome :: s'.history == s.history + [Batch(InHand(s), outcome)])
  {
    var s' := Next(s, e).value;
    if e.WriteOk? {
      assert s'.history == s.history + [Batch(InHand(s), Written)];
    } else if s'.history != s.history {
      assert s'.history == s.history + [Batch(InHand(s), Failed)];
    }
  }

  lemma RestStep<T>(s: State<T>, e: Event<T>)
    requires PhaseOk(s) && Next(s, e).Some? && Resting(Next(s, e).value)
    ensures
      var s' := Next(s, e).value;
      Flatten(s'.history) + InHand(s') == Flatten(s.history) + InHand(s)
  {
    if !Resting(s) {
      ComesToRest(s, e);
    }
    RestTakesNothing(s, e);
    var s' := Next(s, e).value;
    if s'.history != s.history {
      FlattenSnoc(s.history, s'.history[|s.history|]);
      assert Flatten(s'.history) + [] == Flatten(s'.history);
    }
  }

  /** The event k of a run found the channel empty while draining, and the consumer has rested since. */
  ghost predicate FoundLast<T>(s: State<T>, events: seq<Event<T>>, k: nat) {
    && k < |events| && Run(s, events[..k]).Some?
    && var found := Run(s, events[..k]).value;
    && found.phase == Draining && found.queue == [] && Next(found, events[k]).Some?
    && Run(Next(found, events[k]).value, events[k + 1..]).Some?
    && RestsThroughout(Next(found, events[k]).value, events[k + 1..])
  }

  lemma FoundLater<T>(s: State<T>, events: seq<Event<T>>, k: nat)
    requires events != [] && Next(s, events[0]).Some? && FoundLast(Next(s, events[0]).value, events[1..], k)
    ensures FoundLast(s, events, k + 1)
    ensures Run(s, events[..k + 1]) == Run(Next(s, events[0]).value, events[1..][..k])
  {
    assert events[..k + 1] == [events[0]] + events[1..][..k] && events[k + 1 + 1..] == events[1..][k + 1..];
    RunCons(s, events[0], events[1..][..k]);
  }

  lemma {:induction false} LastFind<T>(s: State<T>, events: seq<Event<T>>) returns (k: nat)
    requires Inv(s) && Run(s, events).Some? && Resting(Run(s, events).value) && !RestsThroughout(s, events)
    ensures FoundLast(s, events, k)
    ensures
      var found, end := Run(s, events[..k]).value, Run(s, events).value;
      Taken(found.offered, true) == Flatten(end.history) + InHand(end)
    decreases |events|
  {
    var s', rest := Next(s, events[0]).value, events[1..];
    if RestsThroughout(s', rest) {
      k := 0;
      ComesToRest(s, events[0]);
      FoundSettles(s, events);
    } else {
      StepKeeps(s, events[0]);
      k := LastFind(s', rest);
      FoundLater(s, events, k);
      k := k + 1;
    }
  }

  lemma FoundSettles<T>(s: State<T>, events: seq<Event<T>>)
    requires Inv(s) && s.queue == [] && events != [] && Run(s, events).Some?
    requires RestsThroughout(Next(s, events[0]).value, events[1..])
    ensures
      var end := Run(s, events).value;
      Taken(s.offered, true) == Flatten(end.history) + InHand(end)
  {
    StepKeeps(s, events[0]);
    RestStep(s, events[0]);
    RestSettles(Next(s, events[0]).value, events[1..]);
    assert Flatten(s.history) + InHand(s) + [] == Flatten(s.history) + InHand(s);
  }

  lemma {:induction false} RestSettles<T>(s: State<T>, events: seq<Event<T>>)
    requires Inv(s) && Run(s, events).Some? && RestsThroughout(s, events)
    ensures
      var end := Run(s, events).value;
      Flatten(end.history) + InHand(end) == Flatten(s.history) + InHand(s)
    decreases |events|
  {
    if events != [] {
      StepKeeps(s, events[0]);
      RestStep(s, events[0]);
      RestSettles(Next(s, events[0]).value, events[1..]);
    }
  }

  lemma {:induction false} StartedIsBusy<T>(s: State<T>, events: seq<Event<T>>)
    requires Run(s, events).Some? && Start in events && s.phase == Idle
    ensures !RestsThroughout(s, events)
    decreases |events|
  {
    if events[0] != Start && Next(s, events[0]).value.phase == Idle {
      StartedIsBusy(Next(s, events[0]).value, events[1..]);
    }
  }

  /**
    However a consumer that was started came to its end, by a stop while it waited or
    wrote, a completed channel or an exception: it last found the channel empty while
    draining, from then on it only wrote what it held, and everything accepted before that
    moment is in a finished batch.
   */
  lemma EndsDrained<T>(capacity: nat, events: seq<Event<T>>) returns (k: nat)
    requires Run(Init<T>(capacity), events).Some? && Start in events && Run(Init<T>(capacity), events).value.phase == Idle
    ensures k < |events| && Run(Init<T>(capacity), events[..k]).Some?
    ensures
      var found, end := Run(Init<T>(capacity), events[..k]).value, Run(Init<T>(capacity), events).value;
      && found.phase == Draining && found.queue == [] && Next(found, events[k]).Some?
      && Run(Next(found, events[k]).value, events[k + 1..]).Some?
      && RestsThroughout(Next(found, events[k]).value, events[k + 1..])
      && Taken(found.offered, true) == Flatten(end.history)
  {
    StartedIsBusy(Init<T>(capacity), events);
    k := LastFind(Init<T>(capacity), events);
    assert Flatten(Run(Init<T>(capacity), events).value.history) + [] == Flatten(Run(Init<T>(capacity), events).value.history);
  }

  lemma {:induction false} RunSnoc<T>(s: State<T>, events: seq<Event<T>>, e: Event<T>)
    requires Run(s, events + [e]).Some?
    ensures Run(s, events).Some? && Next(Run(s, events).value, e) == Run(s, events + [e])
    decreases |events|
  {
    if events == [] {
      assert events + [e] == [e];
      assert [e][1..] == [];
    } else {
      assert (events + [e])[1..] == events[1..] + [e];
      RunSnoc(Next(s, events[0]).value, events[1..], e);
    }
  }

  /** A stop can lose a batch: the entry accepted below is neither written nor failed. */
  lemma StopCanCancelABatch()
    ensures
      var events := [Start, Add(7), ReadFirst, FillEnds, Stop, WriteCancelled, DrainEmpty];
      var r := Run(Init<int>(1000), events);
      && r.Some? && r.value.phase == Idle && r.value.writtenCount == 0
      && r.value.history == [Batch([7], Cancelled)]
  {
    var s3 := State(1000, [], false, Filling, [7], false, 0, 0, [(7, true)], [], 0);
    var s6 := State(1000, [], false, Draining, [], true, 0, 0, [(7, true)], [Batch([7], Cancelled)], 1);
    var fill := [FillEnds, Stop, WriteCancelled, DrainEmpty];
    RunCons(s6, DrainEmpty, []);
    assert Run(s6.(phase := Idle), []) == Some(s6.(phase := Idle));
    CancelledFlush(s3, [DrainEmpty]);
    assert [FillEnds, Stop, WriteCancelled] + [DrainEmpty] == fill;
    FillOne([FillEnds, Stop, WriteCancelled, DrainEmpty]);
    assert [Start, Add(7), ReadFirst] + fill == [Start, Add(7), ReadFirst, FillEnds, Stop, WriteCancelled, DrainEmpty];
  }

  lemma FillOne(rest: seq<Event<int>>)
    ensures Run(Init<int>(1000), [Start, Add(7), ReadFirst] + rest) ==
            Run(State(1000, [], false, Filling, [7], false, 0, 0, [(7, true)], [], 0), rest)
  {
    var s0 := Init<int>(1000);
    var s1 := s0.(phase := Waiting);
    var s2 := s1.(queue := [7], offered := [(7, true)]);
    assert s1.queue + [7] == [7] && s1.offered + [(7, true)] == [(7, true)];
    assert Next(s0, Start) == Some(s1) && Next(s1, Add(7)) == Some(s2) && s2.queue[1..] == [] && [s2.queue[0]] == [7];
    assert Next(s2, ReadFirst) == Some(State(1000, [], false, Filling, [7], false, 0, 0, [(7, true)], [], 0));
    RunThree(s0, Start, Add(7), ReadFirst, rest);
  }

  lemma CancelledFlush<T>(s: State<T>, rest: seq<Event<T>>)
    requires s.phase == Filling && !s.cancelRequested
    ensures Run(s, [FillEnds, Stop, WriteCancelled] + rest) ==
            Run(s.(phase := Draining, batch := [], cancelRequested := true, stops := s.stops + 1,
                   history := s.history + [Batch(s.batch, Cancelled)]), rest)
  {
    var s1 := s.(phase := Flushing(1));
    var s2 := s1.(cancelRequested := true, stops := s.stops + 1);
    assert Next(s, FillEnds) == Some(s1) && Next(s1, Stop) == Some(s2);
    RunThree(s, FillEnds, Stop, WriteCancelled, rest);
  }

  lemma RunThree<T>(s: State<T>, e: Event<T>, f: Event<T>, g: Event<T>, rest: seq<Event<T>>)
    requires Next(s, e).Some? && Next(Next(s, e).value, f).Some? && Next(Next(Next(s, e).value, f).value, g).Some?
    ensures Run(s, [e, f, g] + rest) == Run(Next(Next(Next(s, e).value, f).value, g).value, rest)
  {
    var s1 := Next(s, e).value;
    var s2 := Next(s1, f).value;
    RunCons(s2, g, rest);
    RunCons(s1, f, [g] + rest);
    RunCons(s, e, [f] + ([g] + rest));
    assert [e] + ([f] + ([g] + rest)) == [e, f, g] + rest;
  }

  lemma RunCons<T>(s: State<T>, e: Event<T>, rest: seq<Event<T>>)
    requires Next(s, e).Some?
    ensures Run(s, [e] + rest) == Run(Next(s, e).value, rest)
  {
    assert ([e] + rest)[1..] == rest;
  }

  // ----- one flush -----

  /** How a write ends: done, thrown by the store, or thrown because the consumer was cancelled. */
  datatype Answer = Ok | Throws | Interrupted

  lemma {:induction false} RunAppend<T>(s: State<T>, events: seq<Event<T>>, e: Event<T>)
    requires Run(s, events).Some?
    ensures Run(s, events + [e]) == Next(Run(s, events).value, e)
    decreases |events|
  {
    if events == [] {
      assert [e][1..] == [];
      assert events + [e] == [e];
    } else {
      RunAppend(Next(s, events[0]).value, events[1..], e);
      assert (events + [e])[1..] == events[1..] + [e];
    }
  }

  /** The attempt counted from 0 that writes the batch, after attempts that threw and delays that ran out. */
  predicate WritesAt(answers: seq<Answer>, delayInterrupted: seq<bool>, a: nat)
    requires |answers| == 3 && |delayInterrupted| == 2
  {
    a < 3 && answers[a] == Ok && forall b :: 0 <= b < a ==> answers[b] == Throws && !delayInterrupted[b]
  }

  /** What a machine that ends a flush of this batch has done. */
  ghost predicate Flushes<T>(s: State<T>, events: seq<Event<T>>, batch: seq<T>, outcome: Outcome, written: nat) {
    Run(s, events).Some? &&
    var s' := Run(s, events).value;
    && s'.history == s.history + [Batch(batch, outcome)] && s'.writtenCount == s.writtenCount + written
    && s'.queue == s.queue && s'.phase == if outcome == Cancelled then Draining else Flushed
  }

  lemma WriteEnds<T>(s: State<T>, events: seq<Event<T>>, a: nat, e: Event<T>, outcome: Outcome)
    requires Run(s, events) == Some(s.(phase := Flushing(a)))
    requires match e
             case WriteOk => outcome == Written
             case WriteFails => outcome == Failed && a == MAX_ATTEMPTS
             case WriteCancelled => outcome == Cancelled && s.cancelRequested
             case _ => false
    ensures Flushes(s, events + [e], s.batch, outcome, if outcome == Written then |s.batch| else 0)
  {
    RunAppend(s, events, e);
  }

  lemma Retries<T>(s: State<T>, events: seq<Event<T>>, a: nat)
    requires Run(s, events) == Some(s.(phase := Flushing(a))) && a < MAX_ATTEMPTS
    ensures Run(s, (events + [WriteFails]) + [BackoffEnds]) == Some(s.(phase := Flushing(a + 1)))
  {
    var flushing := s.(phase := Flushing(a));
    assert Next(flushing, WriteFails) == Some(flushing.(phase := BackingOff(a)));
    assert Next(flushing.(phase := BackingOff(a)), BackoffEnds) == Some(flushing.(phase := Flushing(a + 1)));
    RunAppend(s, events, WriteFails);
    RunAppend(s, events + [WriteFails], BackoffEnds);
  }

  lemma DelayEnds<T>(s: State<T>, events: seq<Event<T>>, a: nat)
    requires Run(s, events) == Some(s.(phase := Flushing(a))) && a < MAX_ATTEMPTS && s.cancelRequested
    ensures Flushes(s, (events + [WriteFails]) + [BackoffCancelled], s.batch, Cancelled, 0)
  {
    RunAppend(s, events, WriteFails);
    RunAppend(s, events + [WriteFails], BackoffCancelled);
  }

  /**
    The retry loop of a flush, for any answers of the store: it writes the batch at most
    once, gives up after three throws, and is what the machine does from Flushing on.
   */
  method FlushBatch<T>(batch: seq<T>, answers: seq<Answer>, delayInterrupted: seq<bool>, ghost s: State<T>)
    returns (outcome: Outcome, written: nat, ghost events: seq<Event<T>>)
    requires |answers| == 3 && |delayInterrupted| == 2
    requires s.phase == Flushing(1) && s.batch == batch
    requires Interrupted in answers || true in delayInterrupted ==> s.cancelRequested
    ensures outcome == Written <==> exists a: nat :: WritesAt(answers, delayInterrupted, a)
    ensures outcome == Failed <==> answers == [Throws, Throws, Throws] && delayInterrupted == [false, false]
    ensures written == if outcome == Written then |batch| else 0
    ensures Flushes(s, events, batch, outcome, written)
  {
    events := [];
    var attempt := 1;
    while true
      invariant 1 <= attempt <= 3
      invariant forall b :: 0 <= b < attempt - 1 ==> answers[b] == Throws && !delayInterrupted[b]
      invariant Run(s, events) == Some(s.(phase := Flushing(attempt)))
      decreases 4 - attempt
    {
      var answer := answers[attempt - 1];
      assert answer in answers;
      if answer == Ok {
        WriteEnds(s, events, attempt, WriteOk, Written);
        assert WritesAt(answers, delayInterrupted, attempt - 1);
        return Written, |batch|, events + [WriteOk];
      }
      if answer == Interrupted {
        WriteEnds(s, events, attempt, WriteCancelled, Cancelled);
        return Cancelled, 0, events + [WriteCancelled];
      }
      if attempt == 3 {
        WriteEnds(s, events, attempt, WriteFails, Failed);
        return Failed, 0, events + [WriteFails];
      }
      if delayInterrupted[attempt - 1] {
        assert delayInterrupted[attempt - 1] in delayInterrupted;
        DelayEnds(s, events, attempt);
        return Cancelled, 0, (events + [WriteFails]) + [BackoffCancelled];
      }
      Retries(s, events, attempt);
      events := (events + [WriteFails]) + [BackoffEnds];
      attempt := attempt + 1;
    }
  }
}
