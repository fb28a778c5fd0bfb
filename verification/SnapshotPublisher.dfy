/**
  The publication point of compiled snapshots: a compare-and-swap loop run by any number
  of concurrent calls. Each event is one atomic access to the shared field.
 */
module SnapshotPublisher {
  import opened Wrappers

  /** A snapshot object; two values are equal exactly when they are the same object. */
  datatype Snapshot = Snapshot(id: nat, version: int)

  datatype Pc = Ready | Observed(seen: Snapshot) | Returned | Threw(seenVersion: int)

  /** One call of Publish: `first` is the first version it saw, `attempts` its compare-and-swaps. */
  datatype Call = Call(snapshot: Snapshot, pc: Pc, first: Option<int>, attempts: nat)

  type CallId = nat

  datatype State = State(
    current: Snapshot,
    calls: map<CallId, Call>,
    installed: seq<Snapshot>,     // everything the field ever held, oldest first
    installers: seq<CallId>)      // installers[i] put installed[i + 1] there

  datatype Event = Begin(c: CallId, snapshot: Snapshot) | Observe(c: CallId) | CompareExchange(c: CallId)

  function Init(empty: Snapshot): State {
    State(empty, map[], [empty], [])
  }

  function Next(s: State, e: Event): Option<State> {
    match e
    case Begin(c, snapshot) =>
      if c in s.calls then None else Some(s.(calls := s.calls[c := Call(snapshot, Ready, None, 0)]))
    case Observe(c) =>
      if c !in s.calls || s.calls[c].pc != Ready then None
      else
        var call := s.calls[c];
        var first := if call.first.None? then Some(s.current.version) else call.first;
        var pc := if call.snapshot.version <= s.current.version then Threw(s.current.version) else Observed(s.current);
        Some(s.(calls := s.calls[c := call.(pc := pc, first := first)]))
    case CompareExchange(c) =>
      if c !in s.calls || !s.calls[c].pc.Observed? then None
      else
        var call := s.calls[c];
        if s.current == call.pc.seen then
          Some(State(call.snapshot,
                     s.calls[c := call.(pc := Returned, attempts := call.attempts + 1)],
                     s.installed + [call.snapshot],
                     s.installers + [c]))
        else
          Some(s.(calls := s.calls[c := call.(pc := Ready, attempts := call.attempts + 1)]))
  }

  function Run(s: State, events: seq<Event>): Option<State>
    decreases |events|
  {
    if events == [] then Some(s)
    else match Next(s, events[0])
      case None => None
      case Some(s') => Run(s', events[1..])
  }

  // ----- invariant -----

  ghost predicate Increasing(installed: seq<Snapshot>) {
    forall i, j :: 0 <= i < j < |installed| ==> installed[i].version < installed[j].version
  }

  ghost predicate CallOk(s: State, c: CallId)
    requires c in s.calls
  {
    var call := s.calls[c];
    && (call.first.None? ==> call.pc == Ready && call.attempts == 0)
    && (call.first.Some? ==>
        var v0 := call.first.value;
        && (call.attempts == 0 || call.attempts <= call.snapshot.version - v0)
        && v0 <= s.current.version
        && (match call.pc
            case Ready => v0 + call.attempts <= s.current.version
            case Observed(seen) =>
              seen in s.installed && v0 + call.attempts <= seen.version < call.snapshot.version
            case Returned => exists i :: 0 <= i < |s.installers| && s.installers[i] == c
            case Threw(v) => call.snapshot.version <= v && exists i :: 0 <= i < |s.installed| && s.installed[i].version == v))
  }

  ghost predicate Inv(s: State) {
    && |s.installed| == |s.installers| + 1
    && s.current == s.installed[|s.installed| - 1]
    && Increasing(s.installed)
    && (forall i :: 0 <= i < |s.installers| ==>
          s.installers[i] in s.calls && s.calls[s.installers[i]].pc == Returned
          && s.calls[s.installers[i]].snapshot == s.installed[i + 1])
    && (forall c :: c in s.calls ==> CallOk(s, c))
  }

  /** What the field holds never goes back: an older observation is strictly older. */
  lemma OlderThanCurrent(s: State, seen: Snapshot)
    requires |s.installed| >= 1 && s.current == s.installed[|s.installed| - 1] && Increasing(s.installed)
    requires seen in s.installed
    ensures seen == s.current || seen.version < s.current.version
  {
    var i :| 0 <= i < |s.installed| && s.installed[i] == seen;
    assert i < |s.installed| - 1 ==> s.installed[i].version < s.installed[|s.installed| - 1].version;
  }

  lemma StepKeeps(s: State, e: Event)
    requires Inv(s) && Next(s, e).Some?
    ensures Inv(Next(s, e).value)
    ensures s.installed <= Next(s, e).value.installed
  {
    match e
    case Begin(c, snapshot) => CallChangeKeeps(s, c, Next(s, e).value);
    case Observe(c) =>
      assert CallOk(s, c);
      CallChangeKeeps(s, c, Next(s, e).value);
    case CompareExchange(c) =>
      assert CallOk(s, c);
      OlderThanCurrent(s, s.calls[c].pc.seen);
      if s.current == s.calls[c].pc.seen {
        InstallKeeps(s, c);
      } else {
        CallChangeKeeps(s, c, Next(s, e).value);
      }
  }

  /** A step that changes one call that has not returned, and nothing of the field. */
  lemma CallChangeKeeps(s: State, c: CallId, s': State)
    requires Inv(s) && c in s'.calls && s' == s.(calls := s.calls[c := s'.calls[c]])
    requires c in s.calls ==> s.calls[c].pc != Returned
    requires CallOk(s', c)
    ensures Inv(s')
  {
    forall d | d in s'.calls ensures CallOk(s', d) {
      assert d != c ==> CallOk(s, d);
    }
  }

  lemma InstallKeeps(s: State, c: CallId)
    requires Inv(s) && c in s.calls && s.calls[c].pc.Observed? && s.current == s.calls[c].pc.seen
    ensures Inv(Next(s, CompareExchange(c)).value)
  {
    var s' := Next(s, CompareExchange(c)).value;
    assert CallOk(s, c);
    assert s'.installed[..|s.installed|] == s.installed;
    forall i | 0 <= i < |s'.installers|
      ensures s'.installers[i] in s'.calls && s'.calls[s'.installers[i]].pc == Returned
              && s'.calls[s'.installers[i]].snapshot == s'.installed[i + 1]
    {
      if i < |s.installers| {
        assert s'.installers[i] == s.installers[i] && s'.installed[i + 1] == s.installed[i + 1];
      }
    }
    forall d | d in s'.calls ensures CallOk(s', d) {
      InstallKeepsCall(s, c, d);
    }
  }

  lemma InstallKeepsCall(s: State, c: CallId, d: CallId)
    requires Inv(s) && c in s.calls && s.calls[c].pc.Observed? && s.current == s.calls[c].pc.seen
    requires d in s.calls
    ensures CallOk(Next(s, CompareExchange(c)).value, d)
  {
    var s' := Next(s, CompareExchange(c)).value;
    assert CallOk(s, c) && CallOk(s, d);
    assert forall i :: 0 <= i < |s.installed| ==> s'.installed[i] == s.installed[i];
    if s'.calls[d].pc == Returned {
      if d == c {
        assert s'.installers[|s.installers|] == c;
      } else {
        var i :| 0 <= i < |s.installers| && s.installers[i] == d;
        assert s'.installers[i] == d;
      }
    } else if s'.calls[d].pc.Threw? {
      var i :| 0 <= i < |s.installed| && s.installed[i].version == s.calls[d].pc.seenVersion;
      assert s'.installed[i].version == s.calls[d].pc.seenVersion;
    }
  }

  lemma {:induction false} RunKeeps(s: State, events: seq<Event>)
    requires Inv(s) && Run(s, events).Some?
    ensures Inv(Run(s, events).value) && s.installed <= Run(s, events).value.installed
    decreases |events|
  {
    if events != [] {
      StepKeeps(s, events[0]);
      RunKeeps(Next(s, events[0]).value, events[1..]);
    }
  }

  // ----- the main results, for every interleaving -----

  /** The field's versions strictly increase over a run, so no reader ever goes back. */
  lemma VersionsIncrease(empty: Snapshot, events: seq<Event>)
    requires Run(Init(empty), events).Some?
    ensures Increasing(Run(Init(empty), events).value.installed)
  {
    RunKeeps(Init(empty), events);
  }

  /** Of two calls publishing the same version at most one returns. */
  lemma AtMostOneWins(empty: Snapshot, events: seq<Event>, c: CallId, d: CallId)
    requires Run(Init(empty), events).Some?
    requires
      var calls := Run(Init(empty), events).value.calls;
      && c in calls && d in calls && c != d
      && calls[c].pc == Returned && calls[d].pc == Returned
    ensures
      var calls := Run(Init(empty), events).value.calls;
      calls[c].snapshot.version != calls[d].snapshot.version
  {
    RunKeeps(Init(empty), events);
    var s := Run(Init(empty), events).value;
    assert CallOk(s, c) && CallOk(s, d);
    var i :| 0 <= i < |s.installers| && s.installers[i] == c;
    var j :| 0 <= j < |s.installers| && s.installers[j] == d;
    assert s.installed[i + 1] == s.calls[c].snapshot && s.installed[j + 1] == s.calls[d].snapshot;
  }

  /**
    A call throws only after it saw a published version at least its own, returns only
    when its snapshot was installed, and needs at most V - v0 compare-and-swaps, V being
    its version and v0 the first one it saw.
   */
  lemma EveryCall(empty: Snapshot, events: seq<Event>, c: CallId)
    requires Run(Init(empty), events).Some? && c in Run(Init(empty), events).value.calls
    ensures
      var s := Run(Init(empty), events).value;
      var call := s.calls[c];
      && (call.pc.Threw? ==> call.snapshot.version <= call.pc.seenVersion
                             && exists i :: 0 <= i < |s.installed| && s.installed[i].version == call.pc.seenVersion)
      && (call.pc.Returned? ==> call.snapshot in s.installed)
      && (call.attempts > 0 ==> call.first.Some? && call.attempts <= call.snapshot.version - call.first.value)
  {
    RunKeeps(Init(empty), events);
    var s := Run(Init(empty), events).value;
    assert CallOk(s, c);
    if s.calls[c].pc.Returned? {
      var i :| 0 <= i < |s.installers| && s.installers[i] == c;
      assert s.installed[i + 1] == s.calls[c].snapshot;
    }
  }

  /** A compare-and-swap fails only if some other call installed a newer snapshot since the observation. */
  lemma FailureMeansProgress(empty: Snapshot, events: seq<Event>, c: CallId)
    requires Run(Init(empty), events).Some?
    requires
      var s := Run(Init(empty), events).value;
      c in s.calls && s.calls[c].pc.Observed? && s.current != s.calls[c].pc.seen
    ensures
      var s := Run(Init(empty), events).value;
      exists d :: d in s.calls && d != c && s.calls[d].pc == Returned
                  && s.calls[d].snapshot == s.current && s.current.version > s.calls[c].pc.seen.version
  {
    RunKeeps(Init(empty), events);
    var s := Run(Init(empty), events).value;
    assert CallOk(s, c);
    OlderThanCurrent(s, s.calls[c].pc.seen);
    var d := s.installers[|s.installers| - 1];
    assert s.calls[d].snapshot == s.installed[|s.installed| - 1];
  }

  lemma {:induction false} RunConcat(s: State, a: seq<Event>, b: seq<Event>)
    requires Run(s, a).Some?
    ensures Run(s, a + b) == Run(Run(s, a).value, b)
    decreases |a|
  {
    if a == [] {
      assert a + b == b;
    } else {
      RunConcat(Next(s, a[0]).value, a[1..], b);
      assert (a + b)[1..] == a[1..] + b;
    }
  }

  /** Events of other calls leave a call alone, and the field holds what it held exactly when none of them installed. */
  lemma {:induction false} OthersInstall(s: State, events: seq<Event>, c: CallId)
    requires Inv(s) && Run(s, events).Some? && c in s.calls && forall e :: e in events ==> e.c != c
    ensures
      var s' := Run(s, events).value;
      && Inv(s') && c in s'.calls && s'.calls[c] == s.calls[c] && s.installed <= s'.installed
      && (s'.current == s.current <==> s'.installed == s.installed)
    decreases |events|
  {
    RunKeeps(s, events);
    OthersLeaveCall(s, events, c);
    var s' := Run(s, events).value;
    var n := |s.installed| - 1;
    assert s'.installed[n] == s.installed[n];
    if s'.installed != s.installed {
      assert |s'.installed| > |s.installed|;
      assert s'.installed[n].version < s'.installed[|s'.installed| - 1].version;
    }
  }

  lemma {:induction false} OthersLeaveCall(s: State, events: seq<Event>, c: CallId)
    requires Run(s, events).Some? && c in s.calls && forall e :: e in events ==> e.c != c
    ensures var s' := Run(s, events).value; c in s'.calls && s'.calls[c] == s.calls[c]
    decreases |events|
  {
    if events != [] {
      assert events[0] in events;
      OthersLeaveCall(Next(s, events[0]).value, events[1..], c);
    }
  }

  /**
    A call that observed the field and found its version newer, in any run: its swap installs
    its snapshot and ends the call exactly when no other call installed one in between, and
    otherwise leaves the field and has the call look again.
   */
  lemma SwapSucceedsIff(empty: Snapshot, before: seq<Event>, between: seq<Event>, c: CallId)
    requires Run(Init(empty), before).Some? && Run(Run(Init(empty), before).value, between).Some?
    requires
      var s := Run(Init(empty), before).value;
      c in s.calls && s.calls[c].pc == Observed(s.current) && forall e :: e in between ==> e.c != c
    ensures Run(Init(empty), before + between).Some? && Run(Init(empty), before + between + [CompareExchange(c)]).Some?
    ensures
      var s, met := Run(Init(empty), before).value, Run(Init(empty), before + between).value;
      var end := Run(Init(empty), before + between + [CompareExchange(c)]).value;
      && c in end.calls
      && (if met.installed == s.installed then
            end.installed == s.installed + [s.calls[c].snapshot] && end.current == s.calls[c].snapshot && end.calls[c].pc == Returned
          else
            end.installed == met.installed && end.current == met.current && end.calls[c].pc == Ready)
  {
    var s := Run(Init(empty), before).value;
    RunKeeps(Init(empty), before);
    RunConcat(Init(empty), before, between);
    OthersInstall(s, between, c);
    RunConcat(Init(empty), before + between, [CompareExchange(c)]);
    assert [CompareExchange(c)][1..] == [];
  }

  // ----- the loop itself, disturbed by other publishers -----

  datatype PublishError = StaleVersion(version: int, current: int)

  class GatewaySnapshotPublisher {
    var current: Snapshot

    constructor (empty: Snapshot)
      ensures current == empty
    {
      current := empty;
    }

    /** Interlocked.CompareExchange: the previous value is returned. */
    method CompareExchangeCurrent(value: Snapshot, comparand: Snapshot) returns (previous: Snapshot)
      modifies this
      ensures previous == old(current)
      ensures current == if old(current) == comparand then value else old(current)
    {
      previous := current;
      if current == comparand {
        current := value;
      }
    }

    /**
      The compare-and-swap loop. `rivals` are the snapshots other calls install, one between
      each observation and the swap that follows it, while there are any left. The call
      succeeds exactly when its version beats everything it sees, and then its snapshot is
      the one installed last.
     */
    method Publish(snapshot: Snapshot, rivals: seq<Snapshot>) returns (r: Result<Snapshot, PublishError>, attempts: nat)
      requires Increasing([current] + rivals)
      modifies this
      ensures r.Success? <==> current == snapshot && snapshot.version > (old([current] + rivals))[|rivals|].version
      ensures r.Success? ==> r.value == snapshot
      ensures r.Failure? ==> r.error.version == snapshot.version <= r.error.current <= current.version
                             && current in old([current] + rivals)
      ensures attempts > 0 ==> attempts <= snapshot.version - old(current).version
    {
      ghost var field := [current] + rivals;
      var k: nat := 0;
      attempts := 0;
      while true
        invariant k <= |rivals| && attempts == k
        invariant current == field[k] && field == old([current] + rivals)
        invariant k <= current.version - old(current).version
        invariant attempts > 0 ==> attempts <= snapshot.version - old(current).version
        decreases |rivals| - k
      {
        var observed := current;
        if snapshot.version <= observed.version {
          if k < |rivals| {
            assert field[k].version < field[|rivals|].version;
          }
          return Failure(StaleVersion(snapshot.version, observed.version)), attempts;
        }
        if k < |rivals| {
          assert field[k + 1] == rivals[k] && field[k].version < field[k + 1].version;
          current := rivals[k];
          k := k + 1;
        }
        var previous := CompareExchangeCurrent(snapshot, observed);
        attempts := attempts + 1;
        if previous == observed {
          return Success(snapshot), attempts;
        }
      }
    }
  }
}
