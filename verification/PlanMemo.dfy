/**
  The memo of the compiled plugin plan: a double-checked read of (snapshot, plan) by any
  number of concurrent calls, against a publisher that may move on at any moment. Each
  event is one access to a shared field, or taking the lock.
 */
module PlanMemo {
  import opened Wrappers

  type CallId = nat

  /** The position of one call; `s` is the snapshot it read from the publisher. */
  datatype Pc<S, P> =
    | Started
    | HasSnapshot(s: S)
    | FastHit(s: S)             // the memo's snapshot matched; about to read the plan
    | WantsLock(s: S)
    | Locked(s: S)
    | Compiled(s: S, plan: P)
    | PlanWritten(s: S)         // the new plan is stored, the new snapshot is not
    | Settled(s: S)             // still locked, about to return the plan
    | Done(s: S, plan: P, fast: bool, of: S)  // `of`: the snapshot the returned plan was compiled from

  datatype State<S, P> = State(
    published: seq<S>,          // everything the publisher ever held; the last one is current
    memoSnapshot: Option<S>,
    memoPlan: P,
    planOf: Option<S>,          // the snapshot the stored plan was compiled from, if any
    lockedBy: Option<CallId>,
    calls: map<CallId, Pc<S, P>>)

  datatype Event<S> =
    | Publish(s: S)
    | Begin(c: CallId)
    | ReadCurrent(c: CallId)
    | CompareFast(c: CallId)
    | ReadPlanFast(c: CallId)
    | Acquire(c: CallId)
    | CompareLocked(c: CallId)
    | WritePlan(c: CallId)
    | WriteSnapshot(c: CallId)
    | ReturnLocked(c: CallId)

  function Init<S, P>(first: S, empty: P): State<S, P> {
    State([first], None, empty, None, None, map[])
  }

  function Current<S, P>(st: State<S, P>): S
    requires st.published != []
  {
    st.published[|st.published| - 1]
  }

  function At<S, P>(st: State<S, P>, c: CallId, pc: Pc<S, P>): State<S, P> {
    st.(calls := st.calls[c := pc])
  }

  function Next<S(==), P>(compile: S -> P, st: State<S, P>, e: Event<S>): Option<State<S, P>>
    requires st.published != []
  {
    match e
    case Publish(s) => Some(st.(published := st.published + [s]))
    case Begin(c) => if c in st.calls then None else Some(At(st, c, Started))
    case _ =>
      var c := e.c;
      if c !in st.calls then None
      else match (e, st.calls[c])
        case (ReadCurrent(_), Started) => Some(At(st, c, HasSnapshot(Current(st))))
        case (CompareFast(_), HasSnapshot(s)) =>
          Some(At(st, c, if st.memoSnapshot == Some(s) then FastHit(s) else WantsLock(s)))
        case (ReadPlanFast(_), FastHit(s)) =>
          Some(At(st, c, Done(s, st.memoPlan, true, if st.planOf.Some? then st.planOf.value else s)))
        case (Acquire(_), WantsLock(s)) =>
          if st.lockedBy.Some? then None else Some(At(st, c, Locked(s)).(lockedBy := Some(c)))
        case (CompareLocked(_), Locked(s)) =>
          Some(At(st, c, if st.memoSnapshot == Some(s) then Settled(s) else Compiled(s, compile(s))))
        case (WritePlan(_), Compiled(s, plan)) =>
          Some(At(st, c, PlanWritten(s)).(memoPlan := plan, planOf := Some(s)))
        case (WriteSnapshot(_), PlanWritten(s)) => Some(At(st, c, Settled(s)).(memoSnapshot := Some(s)))
        case (ReturnLocked(_), Settled(s)) => Some(At(st, c, Done(s, st.memoPlan, false, s)).(lockedBy := None))
        case _ => None
  }

  function Run<S(==), P>(compile: S -> P, st: State<S, P>, events: seq<Event<S>>): (r: Option<State<S, P>>)
    requires st.published != []
    ensures r.Some? ==> r.value.published != []
    decreases |events|
  {
    if events == [] then Some(st)
    else match Next(compile, st, events[0])
      case None => None
      case Some(st') => Run(compile, st', events[1..])
  }

  // ----- invariant -----

  ghost predicate HoldsLock<S, P>(pc: Pc<S, P>) {
    pc.Locked? || pc.Compiled? || pc.PlanWritten? || pc.Settled?
  }

  ghost predicate CallOk<S, P>(compile: S -> P, st: State<S, P>, c: CallId)
    requires c in st.calls
  {
    && (HoldsLock(st.calls[c]) <==> st.lockedBy == Some(c))
    && (!st.calls[c].Started? ==> st.calls[c].s in st.published)
    && (match st.calls[c]
        case FastHit(_) => st.memoSnapshot.Some?
        case Locked(_) => st.planOf == st.memoSnapshot
        case Compiled(s, plan) => st.planOf == st.memoSnapshot != Some(s) && plan == compile(s)
        case PlanWritten(s) => st.planOf == Some(s)
        case Settled(s) => st.planOf == st.memoSnapshot == Some(s)
        case Done(s, plan, fast, of) => plan == compile(of) && of in st.published && (!fast ==> of == s)
        case _ => true)
  }

  ghost predicate Inv<S, P>(compile: S -> P, empty: P, st: State<S, P>) {
    && st.published != []
    && st.memoPlan == (if st.planOf.Some? then compile(st.planOf.value) else empty)
    && (st.planOf.Some? ==> st.planOf.value in st.published)
    && (st.memoSnapshot.Some? ==> st.planOf.Some?)
    && (st.lockedBy.None? ==> st.planOf == st.memoSnapshot)
    && (st.lockedBy.Some? ==> st.lockedBy.value in st.calls)
    && (forall c :: c in st.calls ==> CallOk(compile, st, c))
  }

  lemma StepKeeps<S, P>(compile: S -> P, empty: P, st: State<S, P>, e: Event<S>)
    requires Inv(compile, empty, st) && Next(compile, st, e).Some?
    ensures Inv(compile, empty, Next(compile, st, e).value)
  {
    var st' := Next(compile, st, e).value;
    forall d | d in st'.calls
      ensures CallOk(compile, st', d)
    {
      if d in st.calls {
        assert CallOk(compile, st, d);
      }
      if !e.Publish? && e.c in st.calls {
        assert CallOk(compile, st, e.c);
      }
    }
  }

  lemma {:induction false} RunKeeps<S, P>(compile: S -> P, empty: P, st: State<S, P>, events: seq<Event<S>>)
    requires Inv(compile, empty, st) && Run(compile, st, events).Some?
    ensures Inv(compile, empty, Run(compile, st, events).value)
    decreases |events|
  {
    if events != [] {
      StepKeeps(compile, empty, st, events[0]);
      RunKeeps(compile, empty, Next(compile, st, events[0]).value, events[1..]);
    }
  }

  // ----- the main results, for every interleaving -----

  /** Whenever the lock is free the memo is coherent. */
  lemma FreeMemoIsCoherent<S, P>(compile: S -> P, first: S, empty: P, events: seq<Event<S>>)
    requires Run(compile, Init(first, empty), events).Some?
    ensures
      var st := Run(compile, Init(first, empty), events).value;
      st.lockedBy.None? ==>
        match st.memoSnapshot
        case None => st.memoPlan == empty
        case Some(s) => s in st.published && st.memoPlan == compile(s)
  {
    RunKeeps(compile, empty, Init(first, empty), events);
  }

  /** Every returned plan compiles a published snapshot; off the fast path it is the one the call read. */
  lemma ReturnedPlans<S, P>(compile: S -> P, first: S, empty: P, events: seq<Event<S>>, c: CallId)
    requires Run(compile, Init(first, empty), events).Some?
    requires
      var calls := Run(compile, Init(first, empty), events).value.calls;
      c in calls && calls[c].Done?
    ensures
      var st := Run(compile, Init(first, empty), events).value;
      && (exists s :: s in st.published && st.calls[c].plan == compile(s))
      && st.calls[c].s in st.published
      && (!st.calls[c].fast ==> st.calls[c].plan == compile(st.calls[c].s))
  {
    RunKeeps(compile, empty, Init(first, empty), events);
    var st := Run(compile, Init(first, empty), events).value;
    assert CallOk(compile, st, c);
    assert st.calls[c].of in st.published && st.calls[c].plan == compile(st.calls[c].of);
  }

  /** The events of a call nothing else interleaves with. */
  function SoloEvents<S(==), P>(st: State<S, P>, c: CallId): seq<Event<S>>
    requires st.published != []
  {
    if st.memoSnapshot == Some(Current(st)) then [Begin(c), ReadCurrent(c), CompareFast(c), ReadPlanFast(c)]
    else [Begin(c), ReadCurrent(c), CompareFast(c), Acquire(c), CompareLocked(c), WritePlan(c), WriteSnapshot(c), ReturnLocked(c)]
  }

  lemma RunCons<S, P>(compile: S -> P, st: State<S, P>, e: Event<S>, rest: seq<Event<S>>)
    requires st.published != [] && Next(compile, st, e).Some?
    ensures Run(compile, st, [e] + rest) == Run(compile, Next(compile, st, e).value, rest)
  {
    assert ([e] + rest)[1..] == rest;
  }

  /** A call that overlaps no other, in any reachable state with the lock free, returns the current plan. */
  lemma SoloCallIsCurrent<S, P>(compile: S -> P, first: S, empty: P, events: seq<Event<S>>, c: CallId)
    requires Run(compile, Init(first, empty), events).Some?
    requires
      var st := Run(compile, Init(first, empty), events).value;
      st.lockedBy.None? && c !in st.calls
    ensures
      var st := Run(compile, Init(first, empty), events).value;
      var r := Run(compile, st, SoloEvents(st, c));
      && r.Some? && c in r.value.calls
      && r.value.calls[c].Done? && r.value.calls[c].plan == compile(Current(st))
  {
    RunKeeps(compile, empty, Init(first, empty), events);
    var st := Run(compile, Init(first, empty), events).value;
    SoloRead(compile, st, c);
    var st2 := At(At(st, c, Started), c, HasSnapshot(Current(st)));
    if st.memoSnapshot == Some(Current(st)) {
      SoloFastPath(compile, st2, c);
      assert [Begin(c), ReadCurrent(c)] + [CompareFast(c), ReadPlanFast(c)] == SoloEvents(st, c);
    } else {
      var st3 := At(st2, c, WantsLock(Current(st)));
      SoloSlowPath(compile, st3, c);
      var slow := [Acquire(c), CompareLocked(c), WritePlan(c), WriteSnapshot(c), ReturnLocked(c)];
      RunCons(compile, st2, CompareFast(c), slow);
      assert [Begin(c), ReadCurrent(c)] + ([CompareFast(c)] + slow) == SoloEvents(st, c);
    }
  }

  lemma SoloRead<S, P>(compile: S -> P, st: State<S, P>, c: CallId)
    requires st.published != [] && c !in st.calls
    ensures forall rest :: Run(compile, st, [Begin(c), ReadCurrent(c)] + rest) ==
                           Run(compile, At(At(st, c, Started), c, HasSnapshot(Current(st))), rest)
  {
    forall rest
      ensures Run(compile, st, [Begin(c), ReadCurrent(c)] + rest) ==
              Run(compile, At(At(st, c, Started), c, HasSnapshot(Current(st))), rest)
    {
      RunCons(compile, At(st, c, Started), ReadCurrent(c), rest);
      RunCons(compile, st, Begin(c), [ReadCurrent(c)] + rest);
      assert [Begin(c)] + ([ReadCurrent(c)] + rest) == [Begin(c), ReadCurrent(c)] + rest;
    }
  }

  lemma SoloFastPath<S, P>(compile: S -> P, st: State<S, P>, c: CallId)
    requires st.published != [] && c in st.calls && st.calls[c].HasSnapshot?
    requires st.memoSnapshot == Some(st.calls[c].s)
    ensures
      var r := Run(compile, st, [CompareFast(c), ReadPlanFast(c)]);
      && r.Some? && c in r.value.calls
      && r.value.calls[c].Done? && r.value.calls[c].plan == st.memoPlan
  {
    var st1 := At(st, c, FastHit(st.calls[c].s));
    RunCons(compile, st1, ReadPlanFast(c), []);
    RunCons(compile, st, CompareFast(c), [ReadPlanFast(c)]);
  }

  lemma SlowRead<S, P>(compile: S -> P, st: State<S, P>, c: CallId) returns (st': State<S, P>)
    requires st.published != [] && st.lockedBy.None? && c in st.calls && st.calls[c].WantsLock?
    requires st.memoSnapshot != Some(st.calls[c].s)
    ensures Next(compile, st, Acquire(c)).Some? && Next(compile, Next(compile, st, Acquire(c)).value, CompareLocked(c)) == Some(st')
    ensures st'.published != [] && c in st'.calls && st'.calls[c] == Compiled(st.calls[c].s, compile(st.calls[c].s))
  {
    var st1 := Next(compile, st, Acquire(c)).value;
    st' := Next(compile, st1, CompareLocked(c)).value;
  }

  lemma SlowWrite<S, P>(compile: S -> P, st: State<S, P>, c: CallId) returns (st': State<S, P>)
    requires st.published != [] && c in st.calls && st.calls[c].Compiled?
    ensures Next(compile, st, WritePlan(c)).Some? && Next(compile, Next(compile, st, WritePlan(c)).value, WriteSnapshot(c)) == Some(st')
    ensures st'.published != [] && c in st'.calls && st'.calls[c] == Settled(st.calls[c].s) && st'.memoPlan == st.calls[c].plan
  {
    var st1 := Next(compile, st, WritePlan(c)).value;
    st' := Next(compile, st1, WriteSnapshot(c)).value;
  }

  lemma SoloSlowPath<S, P>(compile: S -> P, st: State<S, P>, c: CallId)
    requires st.published != [] && st.lockedBy.None? && c in st.calls && st.calls[c].WantsLock?
    requires st.memoSnapshot != Some(st.calls[c].s)
    ensures
      var r := Run(compile, st, [Acquire(c), CompareLocked(c), WritePlan(c), WriteSnapshot(c), ReturnLocked(c)]);
      && r.Some? && c in r.value.calls
      && r.value.calls[c] == Done(st.calls[c].s, compile(st.calls[c].s), false, st.calls[c].s)
  {
    var st2 := SlowRead(compile, st, c);
    var st4 := SlowWrite(compile, st2, c);
    RunPair(compile, st, Acquire(c), CompareLocked(c));
    RunPair(compile, st2, WritePlan(c), WriteSnapshot(c));
    var first: seq<Event<S>> := [Acquire(c), CompareLocked(c)];
    var middle: seq<Event<S>> := [WritePlan(c), WriteSnapshot(c)];
    var last: seq<Event<S>> := [ReturnLocked(c)];
    assert last == [ReturnLocked(c)] + [];
    RunCons(compile, st4, ReturnLocked(c), []);
    RunConcat(compile, st2, middle, last);
    RunConcat(compile, st, first, middle + last);
    assert first + (middle + last) == [Acquire(c), CompareLocked(c), WritePlan(c), WriteSnapshot(c), ReturnLocked(c)];
  }

  // ----- what the unlocked path returns -----

  /** The snapshot for which a run last stored a plan, given the one before it. */
  function LastWritten<S(==), P>(compile: S -> P, st: State<S, P>, written: Option<S>, events: seq<Event<S>>): Option<S>
    requires st.published != []
    decreases |events|
  {
    if events == [] || Next(compile, st, events[0]).None? then written
    else
      var e := events[0];
      var now := if e.WritePlan? then Some(st.calls[e.c].s) else written;
      LastWritten(compile, Next(compile, st, e).value, now, events[1..])
  }

  lemma {:induction false} PlanOfIsLastWritten<S, P>(compile: S -> P, st: State<S, P>, events: seq<Event<S>>)
    requires st.published != [] && Run(compile, st, events).Some?
    ensures Run(compile, st, events).value.planOf == LastWritten(compile, st, st.planOf, events)
    decreases |events|
  {
    if events != [] {
      PlanOfIsLastWritten(compile, Next(compile, st, events[0]).value, events[1..]);
    }
  }

  /**
    Compiling twice in a row for one snapshot never happens, however calls overlap: the
    snapshot a call stores a plan for is not the one a plan was last stored for.
   */
  lemma NoRecompilation<S, P>(compile: S -> P, first: S, empty: P, events: seq<Event<S>>, c: CallId)
    requires Run(compile, Init(first, empty), events).Some?
    requires Next(compile, Run(compile, Init(first, empty), events).value, WritePlan(c)).Some?
    ensures
      var st := Run(compile, Init(first, empty), events).value;
      var st' := Next(compile, st, WritePlan(c)).value;
      && c in st'.calls && st'.calls[c].PlanWritten? && st'.memoPlan == compile(st'.calls[c].s)
      && LastWritten(compile, Init(first, empty), None, events) != Some(st'.calls[c].s)
  {
    RunKeeps(compile, empty, Init(first, empty), events);
    PlanOfIsLastWritten(compile, Init(first, empty), events);
    assert CallOk(compile, Run(compile, Init(first, empty), events).value, c);
  }

  ghost predicate OfOthers<S>(events: seq<Event<S>>, c: CallId) {
    forall e :: e in events ==> e.Publish? || e.c != c
  }

  lemma {:induction false} OthersLeaveCall<S, P>(compile: S -> P, st: State<S, P>, events: seq<Event<S>>, c: CallId)
    requires st.published != [] && Run(compile, st, events).Some? && c in st.calls && OfOthers(events, c)
    ensures var calls := Run(compile, st, events).value.calls; c in calls && calls[c] == st.calls[c]
    decreases |events|
  {
    if events != [] {
      assert events[0] in events;
      OthersLeaveCall(compile, Next(compile, st, events[0]).value, events[1..], c);
    }
  }

  /**
    A call whose unlocked comparison succeeded for snapshot s, in any reachable state, and
    which reads the plan after any events of other calls: what it returns is compiled from
    the snapshot for which a plan was last stored by then, and so from s exactly when that
    one is s.
   */
  lemma FastPathReturnsIff<S, P>(compile: S -> P, first: S, empty: P, before: seq<Event<S>>, between: seq<Event<S>>, c: CallId, s: S)
    requires Run(compile, Init(first, empty), before + between).Some?
    requires Run(compile, Init(first, empty), before).Some?
    requires
      var calls := Run(compile, Init(first, empty), before).value.calls;
      c in calls && calls[c] == FastHit(s)
    requires OfOthers(between, c)
    ensures
      var written := LastWritten(compile, Init(first, empty), None, before + between);
      var r := Run(compile, Init(first, empty), before + between + [ReadPlanFast(c)]);
      && r.Some? && written.Some? && c in r.value.calls
      && r.value.calls[c] == Done(s, compile(written.value), true, written.value)
      && (r.value.calls[c].of == s <==> written == Some(s))
  {
    var init := Init(first, empty);
    var st := Run(compile, init, before).value;
    RunConcat(compile, init, before, between);
    OthersLeaveCall(compile, st, between, c);
    RunKeeps(compile, empty, init, before + between);
    var st' := Run(compile, init, before + between).value;
    assert CallOk(compile, st', c);
    PlanOfIsLastWritten(compile, init, before + between);
    RunConcat(compile, init, before + between, [ReadPlanFast(c)]);
    RunCons(compile, st', ReadPlanFast(c), []);
  }

  function Identity(s: int): int { s }

  /** Call 0 read snapshot 1 long ago and is about to lock; call 1 read snapshot 2; call 2 left 2 in the memo. */
  function LateWriter(): State<int, int> {
    State([1, 2], Some(2), 2, Some(2), None, Late()[2 := Done(2, 2, false, 2)][1 := HasSnapshot(2)])
  }

  lemma {:induction false} RunConcat<S, P>(compile: S -> P, st: State<S, P>, a: seq<Event<S>>, b: seq<Event<S>>)
    requires st.published != [] && Run(compile, st, a).Some?
    ensures Run(compile, st, a + b) == Run(compile, Run(compile, st, a).value, b)
    decreases |a|
  {
    if a == [] {
      assert a + b == b;
    } else {
      RunConcat(compile, Next(compile, st, a[0]).value, a[1..], b);
      assert (a + b)[1..] == a[1..] + b;
    }
  }

  lemma RunPair<S, P>(compile: S -> P, st: State<S, P>, e: Event<S>, f: Event<S>)
    requires st.published != [] && Next(compile, st, e).Some?
    ensures Run(compile, st, [e, f]) == Next(compile, Next(compile, st, e).value, f)
  {
    var st' := Next(compile, st, e).value;
    assert [e, f][1..] == [f] && [f][1..] == [];
    assert Run(compile, st, [e, f]) == Run(compile, st', [f]);
    if Next(compile, st', f).Some? {
      assert Run(compile, st', [f]) == Run(compile, Next(compile, st', f).value, []);
    }
  }

  /** Events two at a time; together they reach the state above from the start. */
  function LateWriterEvents(n: nat): seq<Event<int>> {
    match n
    case 0 => []
    case 1 => LateWriterEvents(0) + [Begin(0), ReadCurrent(0)]
    case 2 => LateWriterEvents(1) + [CompareFast(0), Publish(2)]
    case 3 => LateWriterEvents(2) + [Begin(2), ReadCurrent(2)]
    case 4 => LateWriterEvents(3) + [CompareFast(2), Acquire(2)]
    case 5 => LateWriterEvents(4) + [CompareLocked(2), WritePlan(2)]
    case 6 => LateWriterEvents(5) + [WriteSnapshot(2), ReturnLocked(2)]
    case _ => LateWriterEvents(6) + [Begin(1), ReadCurrent(1)]
  }

  function Late(): map<CallId, Pc<int, int>> {
    map[0 := WantsLock(1)]
  }

  /** Where the first events lead. */
  function Halfway(n: nat): State<int, int> {
    match n
    case 0 => Init(1, 0)
    case 1 => State([1], None, 0, None, None, map[0 := HasSnapshot(1)])
    case 2 => State([1, 2], None, 0, None, None, Late())
    case 3 => State([1, 2], None, 0, None, None, Late()[2 := HasSnapshot(2)])
    case 4 => State([1, 2], None, 0, None, Some(2), Late()[2 := Locked(2)])
    case 5 => State([1, 2], None, 2, Some(2), Some(2), Late()[2 := PlanWritten(2)])
    case 6 => State([1, 2], Some(2), 2, Some(2), None, Late()[2 := Done(2, 2, false, 2)])
    case _ => LateWriter()
  }

  /** Two events lead from one of these states to the next. */
  ghost predicate Leads(n: nat, e: Event<int>, f: Event<int>) {
    && Next(Identity, Halfway(n), e).Some?
    && Next(Identity, Next(Identity, Halfway(n), e).value, f) == Some(Halfway(n + 1))
  }

  lemma PairLeads(n: nat, e: Event<int>, f: Event<int>)
    requires Run(Identity, Init(1, 0), LateWriterEvents(n)) == Some(Halfway(n)) && Leads(n, e, f)
    requires LateWriterEvents(n + 1) == LateWriterEvents(n) + [e, f]
    ensures Run(Identity, Init(1, 0), LateWriterEvents(n + 1)) == Some(Halfway(n + 1))
  {
    RunConcat(Identity, Init(1, 0), LateWriterEvents(n), [e, f]);
    RunPair(Identity, Halfway(n), e, f);
  }

  /** The second of two updates of a key is the one that counts. */
  lemma Overwrites(calls: map<CallId, Pc<int, int>>, c: CallId, first: Pc<int, int>, second: Pc<int, int>)
    ensures calls[c := first][c := second] == calls[c := second]
  {
  }

  lemma FirstReads()
    ensures Leads(0, Begin(0), ReadCurrent(0)) && Leads(1, CompareFast(0), Publish(2))
  {
    var calls: map<CallId, Pc<int, int>> := map[];
    assert calls[0 := Started][0 := HasSnapshot(1)] == map[0 := HasSnapshot(1)];
    calls := map[0 := HasSnapshot(1)];
    assert calls[0 := WantsLock(1)] == Late();
    assert [1] + [2] == [1, 2];
  }

  lemma SecondLocks()
    ensures Leads(2, Begin(2), ReadCurrent(2)) && Leads(3, CompareFast(2), Acquire(2))
  {
    Overwrites(Late(), 2, Started, HasSnapshot(2));
    Overwrites(Late(), 2, HasSnapshot(2), WantsLock(2));
    Overwrites(Late(), 2, WantsLock(2), Locked(2));
  }

  lemma SecondWrites()
    ensures Leads(4, CompareLocked(2), WritePlan(2))
  {
    Overwrites(Late(), 2, Locked(2), Compiled(2, 2));
    Overwrites(Late(), 2, Compiled(2, 2), PlanWritten(2));
  }

  lemma SecondReturns()
    ensures Leads(5, WriteSnapshot(2), ReturnLocked(2))
  {
    Overwrites(Late(), 2, PlanWritten(2), Settled(2));
    Overwrites(Late(), 2, Settled(2), Done(2, 2, false, 2));
  }

  lemma ThirdReads()
    ensures Leads(6, Begin(1), ReadCurrent(1))
  {
    Overwrites(Late()[2 := Done(2, 2, false, 2)], 1, Started, HasSnapshot(2));
  }

  lemma SecondCallIsLocked()
    ensures Run(Identity, Init(1, 0), LateWriterEvents(4)) == Some(Halfway(4))
  {
    FirstReads();
    PairLeads(0, Begin(0), ReadCurrent(0));
    PairLeads(1, CompareFast(0), Publish(2));
    SecondLocks();
    PairLeads(2, Begin(2), ReadCurrent(2));
    PairLeads(3, CompareFast(2), Acquire(2));
  }

  lemma LateWriterIsReachable()
    ensures Run(Identity, Init(1, 0), LateWriterEvents(7)) == Some(LateWriter())
  {
    SecondCallIsLocked();
    SecondWrites();
    PairLeads(4, CompareLocked(2), WritePlan(2));
    SecondReturns();
    PairLeads(5, WriteSnapshot(2), ReturnLocked(2));
    ThirdReads();
    PairLeads(6, Begin(1), ReadCurrent(1));
  }

  lemma OlderPlanFromLateWriter()
    ensures
      var r := Run(Identity, LateWriter(), [CompareFast(1), Acquire(0), CompareLocked(0), WritePlan(0), ReadPlanFast(1)]);
      && r.Some? && 1 in r.value.calls && r.value.calls[1] == Done(2, 1, true, 1)
  {
    var st := LateWriter();
    var st1 := Next(Identity, st, CompareFast(1)).value;
    var st2 := Next(Identity, st1, Acquire(0)).value;
    var st3 := Next(Identity, st2, CompareLocked(0)).value;
    var st4 := Next(Identity, st3, WritePlan(0)).value;
    assert st4.calls[1] == FastHit(2) && st4.memoPlan == 1 && st4.planOf == Some(1);
    RunCons(Identity, st4, ReadPlanFast(1), []);
    RunCons(Identity, st3, WritePlan(0), [ReadPlanFast(1)]);
    RunCons(Identity, st2, CompareLocked(0), [WritePlan(0), ReadPlanFast(1)]);
    RunCons(Identity, st1, Acquire(0), [CompareLocked(0), WritePlan(0), ReadPlanFast(1)]);
    RunCons(Identity, st, CompareFast(1), [Acquire(0), CompareLocked(0), WritePlan(0), ReadPlanFast(1)]);
  }

  /**
    Overlapping reads are not linearizable: call 0 overwrites the plan between the two reads
    of call 1, which read snapshot 2 and returns the plan of the superseded snapshot 1.
   */
  lemma FastPathCanReturnOlderPlan()
    ensures
      var r := Run(Identity, Init(1, 0),
                   LateWriterEvents(7) + [CompareFast(1), Acquire(0), CompareLocked(0), WritePlan(0), ReadPlanFast(1)]);
      && r.Some? && 1 in r.value.calls && r.value.calls[1] == Done(2, 1, true, 1)
  {
    LateWriterIsReachable();
    OlderPlanFromLateWriter();
    RunConcat(Identity, Init(1, 0), LateWriterEvents(7), [CompareFast(1), Acquire(0), CompareLocked(0), WritePlan(0), ReadPlanFast(1)]);
  }

  // ----- the provider, as one call reads it -----

  class GatewayPluginExecutionPlanProvider<S(==), P> {
    const compile: S -> P
    var snapshot: Option<S>
    var plan: P

    ghost predicate Valid()
      reads this
    {
      snapshot.Some? ==> plan == compile(snapshot.value)
    }

    constructor (compile: S -> P, empty: P)
      ensures Valid() && snapshot == None && plan == empty && this.compile == compile
    {
      this.compile := compile;
      snapshot, plan := None, empty;
    }

    /**
      The unlocked check, the wait for the lock, and the check under it. `rival` is the
      snapshot for which another call stores a plan during the wait, if one does.
     */
    method Current(published: S, rival: Option<S>) returns (r: P, compiled: bool)
      requires Valid()
      modifies this
      ensures Valid() && r == plan == compile(published) && snapshot == Some(published)
      ensures compiled <==> old(snapshot) != Some(published) && rival != Some(published)
      ensures old(snapshot) == Some(published) ==> plan == old(plan)
    {
      compiled := false;
      if snapshot == Some(published) {
        return plan, compiled;
      }
      if rival.Some? {
        plan := compile(rival.value);
        snapshot := rival;
      }
      if snapshot != Some(published) {
        compiled := true;
        plan := compile(published);
        snapshot := Some(published);
      }
      r := plan;
    }
  }
}
