/**
  The log ring with any number of threads adding at once: each takes an index from the
  shared counter, stores its entry in the slot of that index, and then bumps the eviction
  counter if it reads a counter beyond the length. The three steps interleave freely.
 */
module RingWriters {
  import opened Wrappers
  import opened Arithmetic

  /** How far the call that took an index has come. */
  datatype Progress = Taken | Stored | Counted

  /** `calls` has one element for every index taken so far; a slot holds the index of the entry in it. */
  datatype State = State(capacity: nat, calls: seq<Progress>, slots: seq<Option<nat>>, evicted: nat)

  datatype Event = Take | Store(i: nat) | Count(i: nat)

  function Init(capacity: nat): State {
    State(capacity, [], seq(capacity, _ => None), 0)
  }

  predicate Sized(s: State) {
    s.capacity > 0 && |s.slots| == s.capacity
  }

  function Next(s: State, e: Event): Option<State>
    requires Sized(s)
  {
    match e
    case Take => Some(s.(calls := s.calls + [Taken]))
    case Store(i) =>
      if i >= |s.calls| || s.calls[i] != Taken then None
      else Some(s.(calls := s.calls[i := Stored], slots := s.slots[i % s.capacity := Some(i)]))
    case Count(i) =>
      if i >= |s.calls| || s.calls[i] != Stored then None
      else Some(s.(calls := s.calls[i := Counted], evicted := s.evicted + if |s.calls| > s.capacity then 1 else 0))
  }

  function Run(s: State, events: seq<Event>): (r: Option<State>)
    requires Sized(s)
    ensures r.Some? ==> Sized(r.value) && r.value.capacity == s.capacity && |r.value.calls| >= |s.calls|
    decreases |events|
  {
    if events == [] then Some(s)
    else match Next(s, events[0])
      case None => None
      case Some(s') => Run(s', events[1..])
  }

  // ----- slots -----

  predicate IsStored(s: State, i: nat) {
    i < |s.calls| && s.calls[i] != Taken
  }

  /** A store into the slot of an index. */
  predicate StoresInSlot(e: Event, i: nat, capacity: nat)
    requires capacity > 0
  {
    e.Store? && e.i % capacity == i % capacity
  }

  /** The store of this index is the last into its slot. */
  ghost predicate StoredLast(events: seq<Event>, capacity: nat, i: nat)
    requires capacity > 0
  {
    exists p :: 0 <= p < |events| && events[p] == Store(i) && forall q :: p < q < |events| ==> !StoresInSlot(events[q], i, capacity)
  }

  ghost predicate NoneStored(events: seq<Event>, capacity: nat, i: nat)
    requires capacity > 0
  {
    forall e :: e in events ==> !StoresInSlot(e, i, capacity)
  }

  lemma StoredLastShifts(e: Event, rest: seq<Event>, capacity: nat, i: nat)
    requires capacity > 0 && (StoredLast(rest, capacity, i) || (NoneStored(rest, capacity, i) && e == Store(i)))
    ensures StoredLast([e] + rest, capacity, i)
  {
    var events := [e] + rest;
    assert forall k :: 0 < k < |events| ==> events[k] == rest[k - 1];
    if StoredLast(rest, capacity, i) {
      var p :| 0 <= p < |rest| && rest[p] == Store(i) && forall q :: p < q < |rest| ==> !StoresInSlot(rest[q], i, capacity);
      assert events[p + 1] == Store(i);
    } else {
      assert events[0] == Store(i);
    }
  }

  lemma StoredLastCons(e: Event, rest: seq<Event>, capacity: nat, i: nat)
    requires capacity > 0
    ensures StoredLast([e] + rest, capacity, i) <==> StoredLast(rest, capacity, i) || (NoneStored(rest, capacity, i) && e == Store(i))
  {
    var events := [e] + rest;
    if StoredLast(events, capacity, i) {
      var p :| 0 <= p < |events| && events[p] == Store(i) && forall q :: p < q < |events| ==> !StoresInSlot(events[q], i, capacity);
      assert forall k :: 0 <= k < |rest| ==> rest[k] == events[k + 1];
      if p > 0 {
        assert rest[p - 1] == Store(i);
      }
    } else if StoredLast(rest, capacity, i) || (NoneStored(rest, capacity, i) && e == Store(i)) {
      StoredLastShifts(e, rest, capacity, i);
    }
  }

  /** A slot holds the index whose store was the last into it. */
  lemma {:induction false} SlotIs(s: State, events: seq<Event>, i: nat)
    requires Sized(s) && Run(s, events).Some?
    ensures Run(s, events).value.slots[i % s.capacity] == Some(i) <==>
            StoredLast(events, s.capacity, i) || (NoneStored(events, s.capacity, i) && s.slots[i % s.capacity] == Some(i))
    decreases |events|
  {
    if events != [] {
      var e, rest := events[0], events[1..];
      assert events == [e] + rest;
      SlotIs(Next(s, e).value, rest, i);
      StoredLastCons(e, rest, s.capacity, i);
      assert NoneStored(events, s.capacity, i) <==> !StoresInSlot(e, i, s.capacity) && NoneStored(rest, s.capacity, i) by {
        assert forall x :: x in events <==> x == e || x in rest;
      }
    }
  }

  /** An index is stored when its event has come, and there is no second one. */
  lemma {:induction false} StoredIff(s: State, events: seq<Event>, i: nat)
    requires Sized(s) && Run(s, events).Some?
    ensures IsStored(Run(s, events).value, i) <==> IsStored(s, i) || Store(i) in events
    ensures IsStored(s, i) ==> Store(i) !in events
    ensures Store(i) in events ==> i < |Run(s, events).value.calls|
    decreases |events|
  {
    if events != [] {
      assert forall x :: x in events <==> x == events[0] || x in events[1..];
      StoredIff(Next(s, events[0]).value, events[1..], i);
    }
  }

  lemma {:induction false} StoredOnce(s: State, events: seq<Event>, i: nat, p: nat, q: nat)
    requires Sized(s) && Run(s, events).Some? && p < |events| && q < |events| && events[p] == events[q] == Store(i)
    ensures p == q
    decreases |events|
  {
    var rest := events[1..];
    if p > 0 && q > 0 {
      StoredOnce(Next(s, events[0]).value, rest, i, p - 1, q - 1);
    } else if p != q {
      assert rest[p + q - 1] == Store(i);
      StoredIff(Next(s, events[0]).value, rest, i);
    }
  }

  /** Nothing is between taking an index and storing its entry. */
  ghost predicate Quiet(s: State) {
    forall i :: 0 <= i < |s.calls| ==> IsStored(s, i)
  }

  /** The slots of the last entries, as many as fit, hold those entries. */
  ghost predicate HoldsLast(s: State)
    requires Sized(s)
  {
    forall i :: Max(0, |s.calls| - s.capacity) <= i < |s.calls| ==> s.slots[i % s.capacity] == Some(i)
  }

  /** A call whole laps behind an index stores in its slot after it. */
  ghost predicate LateStore(events: seq<Event>, capacity: nat, i: nat)
    requires capacity > 0
  {
    exists p, q :: 0 <= p < q < |events| && events[p] == Store(i) && StoresInSlot(events[q], i, capacity) && events[q].i < i
  }

  lemma NextInSlot(i: nat, k: nat, capacity: nat)
    requires capacity > 0 && i < k && i % capacity == k % capacity
    ensures k >= i + capacity
  {
    var d := k / capacity - i / capacity;
    assert d * capacity == k - i;
    PositiveMultiple(d, capacity);
  }

  lemma PositiveMultiple(d: int, c: nat)
    requires d * c > 0
    ensures d * c >= c
  {
    assert d >= 1;
  }

  /** Of one of the last indices, what stores in its slot later is behind. */
  lemma StoredLastIff(capacity: nat, events: seq<Event>, i: nat)
    requires capacity > 0 && Run(Init(capacity), events).Some? && IsStored(Run(Init(capacity), events).value, i)
    requires i + capacity >= |Run(Init(capacity), events).value.calls|
    ensures StoredLast(events, capacity, i) <==> !LateStore(events, capacity, i)
  {
    var s := Init(capacity);
    StoredIff(s, events, i);
    var p :| 0 <= p < |events| && events[p] == Store(i);
    if LateStore(events, capacity, i) && StoredLast(events, capacity, i) {
      var p1, q :| 0 <= p1 < q < |events| && events[p1] == Store(i) && StoresInSlot(events[q], i, capacity) && events[q].i < i;
      var p2 :| 0 <= p2 < |events| && events[p2] == Store(i) && forall q :: p2 < q < |events| ==> !StoresInSlot(events[q], i, capacity);
      StoredOnce(s, events, i, p1, p2);
      assert false;
    }
    if !LateStore(events, capacity, i) {
      forall q | p < q < |events|
        ensures !StoresInSlot(events[q], i, capacity)
      {
        if StoresInSlot(events[q], i, capacity) {
          NotAhead(capacity, events, i, p, q);
        }
      }
    }
  }

  lemma NotAhead(capacity: nat, events: seq<Event>, i: nat, p: nat, q: nat)
    requires capacity > 0 && Run(Init(capacity), events).Some? && p < q < |events|
    requires events[p] == Store(i) && StoresInSlot(events[q], i, capacity)
    requires i + capacity >= |Run(Init(capacity), events).value.calls|
    ensures events[q].i < i
  {
    var k := events[q].i;
    assert events[q] == Store(k) && Store(k) in events;
    StoredIff(Init(capacity), events, k);
    if k == i {
      StoredOnce(Init(capacity), events, i, p, q);
    } else if k > i {
      NextInSlot(i, k, capacity);
    }
  }

  /**
    Over every interleaving, once all entries are stored, the ring holds the last entries
    exactly when for none of them a call one or more laps behind stored in its slot after it.
   */
  lemma HoldsLastIff(capacity: nat, events: seq<Event>)
    requires capacity > 0 && Run(Init(capacity), events).Some? && Quiet(Run(Init(capacity), events).value)
    ensures
      var s := Run(Init(capacity), events).value;
      HoldsLast(s) <==> forall i :: Max(0, |s.calls| - capacity) <= i < |s.calls| ==> !LateStore(events, capacity, i)
  {
    var s := Run(Init(capacity), events).value;
    forall i | Max(0, |s.calls| - capacity) <= i < |s.calls|
      ensures s.slots[i % capacity] == Some(i) <==> !LateStore(events, capacity, i)
    {
      SlotIs(Init(capacity), events, i);
      assert IsStored(s, i);
      StoredLastIff(capacity, events, i);
    }
  }

  // ----- the eviction counter -----

  /** How many calls with an index beyond the length have come to the end. */
  function CountedBeyond(calls: seq<Progress>, capacity: nat): nat {
    if calls == [] then 0
    else
      var n := |calls| - 1;
      CountedBeyond(calls[..n], capacity) + if n >= capacity && calls[n] == Counted then 1 else 0
  }

  lemma {:induction false} CountedBeyondUpdate(calls: seq<Progress>, capacity: nat, i: nat, p: Progress)
    requires i < |calls| && calls[i] != Counted
    ensures CountedBeyond(calls[i := p], capacity) ==
            CountedBeyond(calls, capacity) + if i >= capacity && p == Counted then 1 else 0
  {
    var n := |calls| - 1;
    if i < n {
      CountedBeyondUpdate(calls[..n], capacity, i, p);
      assert calls[i := p][..n] == calls[..n][i := p];
    } else {
      assert calls[i := p][..n] == calls[..n];
    }
  }

  lemma {:induction false} AllCountedBeyond(calls: seq<Progress>, capacity: nat)
    requires forall i :: 0 <= i < |calls| ==> calls[i] == Counted
    ensures CountedBeyond(calls, capacity) == Max(0, |calls| - capacity)
  {
    if calls != [] {
      AllCountedBeyond(calls[..|calls| - 1], capacity);
    }
  }

  /** Of the events after some indices were taken: the calls with an index below the length that count when more than fit are taken. */
  function CountedEarly(events: seq<Event>, capacity: nat, taken: nat): nat
    decreases |events|
  {
    if events == [] then 0
    else match events[0]
      case Take => CountedEarly(events[1..], capacity, taken + 1)
      case Store(_) => CountedEarly(events[1..], capacity, taken)
      case Count(i) => CountedEarly(events[1..], capacity, taken) + if i < capacity && taken > capacity then 1 else 0
  }

  lemma StepCounts(s: State, e: Event)
    requires Sized(s) && Next(s, e).Some?
    ensures
      var s' := Next(s, e).value;
      s'.evicted - CountedBeyond(s'.calls, s.capacity) ==
      s.evicted - CountedBeyond(s.calls, s.capacity) + if e.Count? && e.i < s.capacity && |s.calls| > s.capacity then 1 else 0
  {
    match e
    case Take => assert (s.calls + [Taken])[..|s.calls|] == s.calls;
    case Store(i) => CountedBeyondUpdate(s.calls, s.capacity, i, Stored);
    case Count(i) => CountedBeyondUpdate(s.calls, s.capacity, i, Counted);
  }

  lemma {:induction false} RunCounts(s: State, events: seq<Event>)
    requires Sized(s) && Run(s, events).Some?
    ensures
      var s' := Run(s, events).value;
      s'.evicted - CountedBeyond(s'.calls, s.capacity) ==
      s.evicted - CountedBeyond(s.calls, s.capacity) + CountedEarly(events, s.capacity, |s.calls|)
    decreases |events|
  {
    if events != [] {
      StepCounts(s, events[0]);
      RunCounts(Next(s, events[0]).value, events[1..]);
    }
  }

  /**
    Once all calls are through, the eviction counter exceeds the number of overwritten
    entries by the calls with an index below the length that counted only after more than
    that many indices had been taken, so it is right exactly when there were none.
   */
  lemma EvictionsExceedBy(capacity: nat, events: seq<Event>)
    requires capacity > 0 && Run(Init(capacity), events).Some?
    requires forall i :: 0 <= i < |Run(Init(capacity), events).value.calls| ==> Run(Init(capacity), events).value.calls[i] == Counted
    ensures
      var s := Run(Init(capacity), events).value;
      s.evicted == Max(0, |s.calls| - capacity) + CountedEarly(events, capacity, 0)
  {
    RunCounts(Init(capacity), events);
    AllCountedBeyond(Run(Init(capacity), events).value.calls, capacity);
  }

  // ----- examples -----

  lemma RunCons(s: State, e: Event, rest: seq<Event>)
    requires Sized(s) && Next(s, e).Some?
    ensures Run(s, [e] + rest) == Run(Next(s, e).value, rest)
  {
    assert ([e] + rest)[1..] == rest;
  }

  /** A ring of one slot with two calls. */
  function OneSlot(first: Progress, second: Progress, slot: Option<nat>, evicted: nat): State {
    State(1, [first, second], [slot], evicted)
  }

  lemma BothTake(rest: seq<Event>)
    ensures Run(Init(1), [Take] + ([Take] + rest)) == Run(OneSlot(Taken, Taken, None, 0), rest)
  {
    var s1 := State(1, [Taken], [None], 0);
    assert Init(1) == State(1, [], [None], 0);
    assert [] + [Taken] == [Taken] && [Taken] + [Taken] == [Taken, Taken];
    RunCons(s1, Take, rest);
    RunCons(Init(1), Take, [Take] + rest);
  }

  lemma BothStore(rest: seq<Event>)
    ensures Run(OneSlot(Taken, Taken, None, 0), [Store(1)] + ([Store(0)] + rest)) == Run(OneSlot(Stored, Stored, Some(0), 0), rest)
  {
    var none: Option<nat> := None;
    assert [Taken, Taken][1 := Stored] == [Taken, Stored] && [Taken, Stored][0 := Stored] == [Stored, Stored];
    assert [none][0 := Some(1)] == [Some(1)] && [Some(1)][0 := Some(0)] == [Some(0)];
    RunCons(OneSlot(Taken, Stored, Some(1), 0), Store(0), rest);
    RunCons(OneSlot(Taken, Taken, None, 0), Store(1), [Store(0)] + rest);
  }

  lemma BothCount()
    ensures Run(OneSlot(Stored, Stored, Some(0), 0), [Count(0)] + [Count(1)]) == Some(OneSlot(Counted, Counted, Some(0), 2))
  {
    assert [Stored, Stored][0 := Counted] == [Counted, Stored] && [Counted, Stored][1 := Counted] == [Counted, Counted];
    RunCons(OneSlot(Counted, Stored, Some(0), 1), Count(1), []);
    RunCons(OneSlot(Stored, Stored, Some(0), 0), Count(0), [Count(1)]);
  }

  /** Two calls on a ring of one slot: the first is overtaken, and its older entry stays; both count an eviction. */
  lemma OvertakenStoreStays()
    ensures
      var r := Run(Init(1), [Take] + ([Take] + ([Store(1)] + ([Store(0)] + ([Count(0)] + [Count(1)])))));
      r.Some? && Quiet(r.value) && !HoldsLast(r.value) && |r.value.calls| == 2 && r.value.evicted == 2
  {
    BothTake([Store(1)] + ([Store(0)] + ([Count(0)] + [Count(1)])));
    BothStore([Count(0)] + [Count(1)]);
    BothCount();
    var s := OneSlot(Counted, Counted, Some(0), 2);
    assert s.slots[1 % 1] != Some(1);
  }
}
