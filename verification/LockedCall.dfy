/**
  A whole call under the configuration lock: the change, its publication, the save. The
  version is raised before publication and nothing is undone, so a publication that throws
  leaves the change in the working set.
 */
module LockedCall {
  import opened Wrappers
  import opened KeyedList
  import opened UniqueUids
  import opened WorkingSet
  import opened WorkingSetBatches
  import opened WorkingSetInvariant
  import opened WorkingSetTheorems
  import opened OperationGuards
  import opened Persister
  import opened PersisterTheorems
  import opened ConfigPublisher
  import ChangeTokens
  import SnapshotPublisher

  // ----- one call -----

  /** A save that throws leaves the tables in some state between the old and the new one. */
  datatype SaveOutcome = Saves | SaveThrows(left: Store)

  /**
    What a call meets: whether compiling succeeds, the version installed before it and the
    newest one installed before its swap, and whether another apply disposes the change
    source it reads for the hand-over before it takes that source's token.
   */
  datatype Surroundings = Surroundings(compiles: bool, installed: int, newest: int, sourceDisposed: bool, save: SaveOutcome)

  /** The working set, the lists installed last and those handed over last from here, and the tables. */
  datatype Control = Control(config: WorkingSet, installed: Published, handed: Published, store: Store)

  datatype Outcome = Answered(result: OpResult) | Threw

  /** Most operations log a failed save; a batch import and a full replacement pass the exception on. */
  predicate PassesSaveErrors(op: Op) {
    op.OpImportBatch? || op.OpReplaceAll?
  }

  predicate Installs(env: Surroundings, after: WorkingSet) {
    env.compiles && SnapshotVersion(env.installed, after.version) > env.newest
  }

  predicate Publishes(env: Surroundings, after: WorkingSet) {
    Installs(env, after) && !env.sourceDisposed
  }

  /** What a call meets when others install the snapshots of a field, of which it reads the first. */
  function Met(field: seq<SnapshotPublisher.Snapshot>, compiles: bool, sourceDisposed: bool, left: Option<Store>): Surroundings
    requires field != []
  {
    Surroundings(compiles, field[0].version, field[|field| - 1].version, sourceDisposed,
                 if left.None? then Saves else SaveThrows(left.value))
  }

  function SaveWith(store: Store, config: WorkingSet, op: Op, outcome: SaveOutcome): Pass {
    match outcome
    case Saves => Save(store, config, SaveKey(op).0, SaveKey(op).1)
    case SaveThrows(left) => Pass(left, false)
  }

  /** The lists of the working set installed and handed over, as far as that goes. */
  function PublishLists(c: Control, env: Surroundings): Control {
    if !Installs(env, c.config) then c
    else
      var installed := c.(installed := PublishedAs(c.config, SnapshotVersion(env.installed, c.config.version)));
      if env.sourceDisposed then installed else installed.(handed := PublishedAs(c.config, c.config.version))
  }

  function SaveAndPublish(c: Control, op: Op, result: OpResult, env: Surroundings): (Control, Outcome) {
    var published := PublishLists(c, env);
    if !Publishes(env, c.config) then (published, Threw)
    else
      var pass := SaveWith(c.store, c.config, op, env.save);
      (published.(store := pass.store), if !pass.done && PassesSaveErrors(op) then Threw else Answered(result))
  }

  function Execute(c: Control, op: Op, env: Surroundings): (Control, Outcome) {
    var (after, result) := Perform(c.config, op);
    if result.Refused? || after.version == c.config.version then (c.(config := after), Answered(result))
    else SaveAndPublish(c.(config := after), op, result, env)
  }

  /** The service: one lock around the working set, its publisher and its persister. */
  class ConfigService {
    var config: WorkingSet
    const publisher: DynamicConfigPublisher
    const persister: DynamicConfigPersister

    constructor (config: WorkingSet, publisher: DynamicConfigPublisher, persister: DynamicConfigPersister)
      ensures this.config == config && this.publisher == publisher && this.persister == persister
    {
      this.config, this.publisher, this.persister := config, publisher, persister;
    }

    function State(): Control
      reads this, publisher, publisher.configProvider, persister.repo
    {
      Control(config, publisher.installed, publisher.configProvider.handed, persister.repo.Contents())
    }

    /**
      `during` and `rivals` are what others install meanwhile; `left` is what a save that
      throws leaves in the tables.
     */
    method ExecuteWithLockAsync(op: Op, id: nat, compiles: bool, during: seq<SnapshotPublisher.Snapshot>,
                                rivals: seq<SnapshotPublisher.Snapshot>, sourceDisposed: bool, left: Option<Store>)
      returns (outcome: Outcome)
      requires SnapshotPublisher.Increasing([publisher.snapshotPublisher.current] + during + rivals)
      modifies this, publisher, publisher.snapshotPublisher, publisher.configProvider, persister.repo
      ensures
        var env := Met(old([publisher.snapshotPublisher.current] + during + rivals), compiles, sourceDisposed, left);
        (State(), outcome) == Execute(old(State()), op, env)
    {
      var (after, result) := Perform(config, op);
      var committed := after.version != config.version;
      config := after;
      if result.Refused? || !committed {
        return Answered(result);
      }
      outcome := SaveAndPublishAsync(op, result, id, compiles, during, rivals, sourceDisposed, left);
    }

    method SaveAndPublishAsync(op: Op, result: OpResult, id: nat, compiles: bool, during: seq<SnapshotPublisher.Snapshot>,
                               rivals: seq<SnapshotPublisher.Snapshot>, sourceDisposed: bool, left: Option<Store>)
      returns (outcome: Outcome)
      requires SnapshotPublisher.Increasing([publisher.snapshotPublisher.current] + during + rivals)
      modifies publisher, publisher.snapshotPublisher, publisher.configProvider, persister.repo
      ensures
        var env := Met(old([publisher.snapshotPublisher.current] + during + rivals), compiles, sourceDisposed, left);
        (State(), outcome) == SaveAndPublish(old(State()), op, result, env)
    {
      var published := PublishChanges(id, compiles, during, rivals, sourceDisposed, left);
      if !published {
        return Threw;
      }
      var saved := SaveAsync(SaveKey(op).0, SaveKey(op).1, left);
      outcome := if !saved && PassesSaveErrors(op) then Threw else Answered(result);
    }

    method PublishChanges(id: nat, compiles: bool, during: seq<SnapshotPublisher.Snapshot>, rivals: seq<SnapshotPublisher.Snapshot>,
                          sourceDisposed: bool, ghost left: Option<Store>) returns (published: bool)
      requires SnapshotPublisher.Increasing([publisher.snapshotPublisher.current] + during + rivals)
      modifies publisher, publisher.snapshotPublisher, publisher.configProvider
      ensures
        var env := Met(old([publisher.snapshotPublisher.current] + during + rivals), compiles, sourceDisposed, left);
        State() == PublishLists(old(State()), env) && (published <==> Publishes(env, config))
    {
      ghost var field := [publisher.snapshotPublisher.current] + during + rivals;
      assert field[0] == publisher.snapshotPublisher.current;
      var lists := publisher.Publish(config, id, compiles, during, rivals, sourceDisposed);
      published := lists.Success?;
    }

    method SaveAsync(operationName: string, targetName: Option<Id>, left: Option<Store>) returns (saved: bool)
      modifies persister.repo
      ensures Pass(persister.repo.Contents(), saved) ==
              if left.None? then Save(old(persister.repo.Contents()), config, operationName, targetName) else Pass(left.value, false)
    {
      if left.None? {
        saved := persister.SaveAsync(config, operationName, targetName);
      } else {
        persister.repo.routes := left.value.routes;
        persister.repo.clusters := left.value.clusters;
        persister.repo.destinations := left.value.destinations;
        saved := false;
      }
    }
  }

  // ----- failed calls -----

  predicate Failed(outcome: Outcome) {
    outcome.Threw? || outcome.result.Refused?
  }

  lemma RefusesNothingToChange(ws: WorkingSet, op: Op)
    ensures Refuses(ws, op) ==> !Changes(ws, op)
  {
  }

  /** Untouched by a publication that threw, else as the save that threw, or was refused, left it. */
  function StoreAfterThrow(c: Control, env: Surroundings, after: WorkingSet): Store {
    if !Publishes(env, after) then c.store
    else if env.save.SaveThrows? then env.save.left else FullSave(c.store, after).store
  }

  lemma ThrowLeavesStore(c: Control, op: Op, env: Surroundings)
    requires Execute(c, op, env).1.Threw?
    ensures Execute(c, op, env).0.store == StoreAfterThrow(c, env, Apply(c.config, op))
  {
    if PassesSaveErrors(op) {
      PassedOnIsFull(op, c.store, Apply(c.config, op));
    }
  }

  /**
    A failed call leaves the working set as it was exactly when it was refused, and then
    everything. One that throws has changed it and raised its version. Whether its lists
    are installed and whether they are handed over depends on what it met; unless they are
    handed over, nothing is saved.
   */
  lemma FailedCallLeavesIff(c: Control, op: Op, env: Surroundings)
    requires Inv(c.config) && Failed(Execute(c, op, env).1)
    ensures
      var ((c', outcome), after) := (Execute(c, op, env), Apply(c.config, op));
      && (c'.config == c.config <==> Refuses(c.config, op))
      && (c' == c <==> Refuses(c.config, op))
      && (outcome.Threw? <==> Changes(c.config, op))
      && (outcome.Threw? ==>
            && c'.config == after && after.version == c.config.version + 1
            && c'.installed == (if Installs(env, after) then PublishedAs(after, SnapshotVersion(env.installed, after.version))
                                else c.installed)
            && c'.handed == (if Publishes(env, after) then PublishedAs(after, after.version) else c.handed)
            && c'.store == StoreAfterThrow(c, env, after))
  {
    ChangesIff(c.config, op);
    RefusedIff(c.config, op);
    RefusesNothingToChange(c.config, op);
    if Execute(c, op, env).1.Threw? {
      ThrowLeavesStore(c, op, env);
    }
    if Refuses(c.config, op) {
      RefusalChangesNothing(c.config, op);
    }
  }

  /** Others have installed a version above the one read, at least one, and not below the working set's. */
  predicate Overtakes(env: Surroundings, version: int) {
    env.newest > env.installed && env.newest >= version && env.newest >= 1
  }

  /** The operations that pass on a failed save are saved in full, which rows of the same uid under another id can refuse. */
  predicate SaveFails(c: Control, op: Op, env: Surroundings) {
    env.save.SaveThrows? || !FullSave(c.store, Apply(c.config, op)).done
  }

  lemma PassedOnIsFull(op: Op, s: Store, ws: WorkingSet)
    requires PassesSaveErrors(op)
    ensures Save(s, ws, SaveKey(op).0, SaveKey(op).1) == FullSave(s, ws)
  {
    NamesDiffer(op);
  }

  lemma InstallsIff(env: Surroundings, after: WorkingSet)
    requires env.newest >= env.installed
    ensures Installs(env, after) <==> env.compiles && !Overtakes(env, after.version)
  {
  }

  /**
    A call throws exactly when it changes something and compiling throws, others overtake
    it, the change source is disposed before its hand-over, or its save fails and it is one
    that passes that on.
   */
  lemma ThrowsIff(c: Control, op: Op, env: Surroundings)
    requires Inv(c.config) && env.newest >= env.installed
    ensures Execute(c, op, env).1.Threw? <==>
            Changes(c.config, op)
            && (!env.compiles || Overtakes(env, c.config.version + 1) || env.sourceDisposed
                || ((op.OpImportBatch? || op.OpReplaceAll?) && SaveFails(c, op, env)))
  {
    ChangesIff(c.config, op);
    RefusedIff(c.config, op);
    RefusesNothingToChange(c.config, op);
    InstallsIff(env, Apply(c.config, op));
    if PassesSaveErrors(op) {
      PassedOnIsFull(op, c.store, Apply(c.config, op));
    }
  }

  // ----- runs with failures -----

  datatype Call = Call(op: Op, env: Surroundings)

  function Operations(calls: seq<Call>): seq<Op> {
    seq(|calls|, i requires 0 <= i < |calls| => calls[i].op)
  }

  function ExecuteAll(c: Control, calls: seq<Call>): Control
    decreases |calls|
  {
    if calls == [] then c else ExecuteAll(Execute(c, calls[0].op, calls[0].env).0, calls[1..])
  }

  /** The working set before a call of a run, whatever failed. */
  function ConfigBefore(config: WorkingSet, calls: seq<Call>, k: nat): WorkingSet
    requires k <= |calls|
  {
    ApplyAll(config, Operations(calls[..k]))
  }

  /** Whatever fails, the working set is that of the operations alone. */
  lemma {:induction false} FailuresDoNotTouchConfig(c: Control, calls: seq<Call>)
    ensures ExecuteAll(c, calls).config == ApplyAll(c.config, Operations(calls))
    decreases |calls|
  {
    if calls != [] {
      FailuresDoNotTouchConfig(Execute(c, calls[0].op, calls[0].env).0, calls[1..]);
      assert Operations(calls)[1..] == Operations(calls[1..]);
    }
  }

  /** So over every run of safe operations with any failures it stays in order. */
  lemma FailingRunKeepsInvariant(c: Control, calls: seq<Call>)
    requires Inv(c.config) && SafeRun(c.config, Operations(calls))
    ensures Inv(ExecuteAll(c, calls).config)
  {
    FailuresDoNotTouchConfig(c, calls);
    RunKeepsInvariant(c.config, Operations(calls));
  }

  // ----- what the proxy was handed -----

  predicate ChangesAt(config: WorkingSet, calls: seq<Call>, k: nat)
    requires k < |calls|
  {
    Changes(ConfigBefore(config, calls, k), calls[k].op)
  }

  /** A call of a run changes something and its publication succeeds. */
  predicate HandsOver(config: WorkingSet, calls: seq<Call>, k: nat)
    requires k < |calls|
  {
    ChangesAt(config, calls, k) && Publishes(calls[k].env, Apply(ConfigBefore(config, calls, k), calls[k].op))
  }

  lemma {:induction false} ApplyAllSnoc(ws: WorkingSet, ops: seq<Op>, op: Op)
    ensures ApplyAll(ws, ops + [op]) == Apply(ApplyAll(ws, ops), op)
    decreases |ops|
  {
    if ops == [] {
      assert [] + [op] == [op] && [op][1..] == [];
    } else {
      ApplyAllSnoc(Apply(ws, ops[0]), ops[1..], op);
      assert (ops + [op])[1..] == ops[1..] + [op];
    }
  }

  lemma {:induction false} ExecuteAllSnoc(c: Control, calls: seq<Call>, call: Call)
    ensures ExecuteAll(c, calls + [call]) == Execute(ExecuteAll(c, calls), call.op, call.env).0
    decreases |calls|
  {
    if calls == [] {
      assert [] + [call] == [call] && [call][1..] == [];
    } else {
      ExecuteAllSnoc(Execute(c, calls[0].op, calls[0].env).0, calls[1..], call);
      assert (calls + [call])[1..] == calls[1..] + [call];
    }
  }

  lemma OneCallHands(c: Control, op: Op, env: Surroundings)
    requires Inv(c.config)
    ensures
      var after := Apply(c.config, op);
      && (Changes(c.config, op) && Publishes(env, after) ==> Execute(c, op, env).0.handed == PublishedAs(after, after.version))
      && (!(Changes(c.config, op) && Publishes(env, after)) ==> Execute(c, op, env).0.handed == c.handed)
  {
    ChangesIff(c.config, op);
    RefusedIff(c.config, op);
    RefusesNothingToChange(c.config, op);
  }

  lemma {:induction false} SafePrefix(ws: WorkingSet, ops: seq<Op>, op: Op)
    requires SafeRun(ws, ops + [op])
    ensures SafeRun(ws, ops) && Safe(ApplyAll(ws, ops), op)
    decreases |ops|
  {
    if ops == [] {
      assert ([] + [op])[0] == op;
    } else {
      assert (ops + [op])[1..] == ops[1..] + [op];
      SafePrefix(Apply(ws, ops[0]), ops[1..], op);
    }
  }

  /** The last call of a run: what it finds, and what that makes of the run. */
  lemma LastCall(c: Control, init: seq<Call>, last: Call)
    requires Inv(c.config) && SafeRun(c.config, Operations(init + [last]))
    ensures SafeRun(c.config, Operations(init)) && Inv(ExecuteAll(c, init).config)
    ensures ExecuteAll(c, init).config == ConfigBefore(c.config, init + [last], |init|)
    ensures ExecuteAll(c, init + [last]) == Execute(ExecuteAll(c, init), last.op, last.env).0
    ensures ExecuteAll(c, init + [last]).config == Apply(ExecuteAll(c, init).config, last.op)
  {
    assert Operations(init + [last]) == Operations(init) + [last.op] && (init + [last])[..|init|] == init;
    SafePrefix(c.config, Operations(init), last.op);
    FailuresDoNotTouchConfig(c, init);
    FailingRunKeepsInvariant(c, init);
    ExecuteAllSnoc(c, init, last);
    FailuresDoNotTouchConfig(c, init + [last]);
    ApplyAllSnoc(c.config, Operations(init), last.op);
  }

  lemma HandedLast(c: Control, init: seq<Call>, last: Call)
    requires Inv(c.config) && SafeRun(c.config, Operations(init + [last]))
    ensures SafeRun(c.config, Operations(init))
    ensures
      var now := ExecuteAll(c, init + [last]);
      && (HandsOver(c.config, init + [last], |init|) ==> now.handed == PublishedAs(now.config, now.config.version))
      && (!HandsOver(c.config, init + [last], |init|) ==> now.handed == ExecuteAll(c, init).handed)
  {
    var before, now, hands := LastStep(c, init, last);
    HandedBy(before, now, last.op, last.env, hands);
  }

  /** The controls before and after the last call, and whether it hands over. */
  lemma LastStep(c: Control, init: seq<Call>, last: Call) returns (before: Control, now: Control, hands: bool)
    requires Inv(c.config) && SafeRun(c.config, Operations(init + [last]))
    ensures SafeRun(c.config, Operations(init)) && before == ExecuteAll(c, init) && now == ExecuteAll(c, init + [last])
    ensures hands <==> HandsOver(c.config, init + [last], |init|)
    ensures Inv(before.config) && now == Execute(before, last.op, last.env).0 && now.config == Apply(before.config, last.op)
    ensures hands <==> Changes(before.config, last.op) && Publishes(last.env, Apply(before.config, last.op))
  {
    LastCall(c, init, last);
    before, now := ExecuteAll(c, init), ExecuteAll(c, init + [last]);
    hands := HandedToProxy(c.config, init, last, before.config);
  }

  lemma HandedToProxy(config: WorkingSet, init: seq<Call>, last: Call, before: WorkingSet) returns (hands: bool)
    requires before == ConfigBefore(config, init + [last], |init|)
    ensures hands <==> HandsOver(config, init + [last], |init|)
    ensures hands <==> Changes(before, last.op) && Publishes(last.env, Apply(before, last.op))
  {
    hands := HandsOver(config, init + [last], |init|);
    LastHandsOverIff(config, init, last, before);
  }

  lemma HandedBy(before: Control, now: Control, op: Op, env: Surroundings, hands: bool)
    requires Inv(before.config) && now == Execute(before, op, env).0 && now.config == Apply(before.config, op)
    requires hands <==> Changes(before.config, op) && Publishes(env, Apply(before.config, op))
    ensures now.handed == if hands then PublishedAs(now.config, now.config.version) else before.handed
  {
    OneCallHands(before, op, env);
  }

  lemma LastHandsOverIff(config: WorkingSet, init: seq<Call>, last: Call, before: WorkingSet)
    requires before == ConfigBefore(config, init + [last], |init|)
    ensures HandsOver(config, init + [last], |init|) <==> Changes(before, last.op) && Publishes(last.env, Apply(before, last.op))
  {
  }

  /**
    Over every run of safe operations, with any failures, the proxy was last handed exactly
    what the last call to hand over made of all operations up to it, those of failed calls
    included; when none did, nothing.
   */
  lemma {:induction false} HandedIs(c: Control, calls: seq<Call>, k: nat)
    requires Inv(c.config) && SafeRun(c.config, Operations(calls)) && k <= |calls|
    requires forall j :: k <= j < |calls| ==> !HandsOver(c.config, calls, j)
    requires k > 0 ==> HandsOver(c.config, calls, k - 1)
    ensures ExecuteAll(c, calls).handed ==
            if k == 0 then c.handed else PublishedAs(ConfigBefore(c.config, calls, k), ConfigBefore(c.config, calls, k).version)
    decreases |calls|
  {
    if calls != [] {
      var init, last := calls[..|calls| - 1], calls[|calls| - 1];
      assert calls == init + [last];
      HandedLast(c, init, last);
      if k == |calls| {
        assert calls[..k] == calls;
        FailuresDoNotTouchConfig(c, calls);
      } else {
        SameBefore(c.config, init, last);
        HandedIs(c, init, k);
      }
    }
  }

  /** A call more changes nothing of what the earlier ones found and did. */
  lemma SameBefore(config: WorkingSet, init: seq<Call>, last: Call)
    ensures forall j :: 0 <= j <= |init| ==> ConfigBefore(config, init + [last], j) == ConfigBefore(config, init, j)
    ensures forall j :: 0 <= j < |init| ==> HandsOver(config, init + [last], j) == HandsOver(config, init, j)
  {
    assert forall j :: 0 <= j <= |init| ==> (init + [last])[..j] == init[..j];
  }

  lemma {:induction false} VersionCounts(c: Control, calls: seq<Call>, k: nat)
    requires Inv(c.config) && SafeRun(c.config, Operations(calls)) && k <= |calls|
    ensures
      var before, now := ConfigBefore(c.config, calls, k), ExecuteAll(c, calls).config;
      && before.version <= now.version
      && (before.version == now.version <==> forall j :: k <= j < |calls| ==> !ChangesAt(c.config, calls, j))
      && (before.version == now.version ==> before == now)
    decreases |calls|
  {
    if k == |calls| {
      assert calls[..k] == calls;
      FailuresDoNotTouchConfig(c, calls);
    } else {
      var init, last := calls[..|calls| - 1], calls[|calls| - 1];
      assert calls == init + [last];
      LastCall(c, init, last);
      SameBefore(c.config, init, last);
      VersionCounts(c, init, k);
      ChangesIff(ExecuteAll(c, init).config, last.op);
      LastChanges(c.config, init, last, k);
    }
  }

  lemma LastChanges(config: WorkingSet, init: seq<Call>, last: Call, k: nat)
    requires k <= |init|
    ensures (forall j :: k <= j <= |init| ==> !ChangesAt(config, init + [last], j)) <==>
            (forall j :: k <= j < |init| ==> !ChangesAt(config, init, j))
            && !Changes(ConfigBefore(config, init + [last], |init|), last.op)
  {
    SameBefore(config, init, last);
    assert forall j :: k <= j < |init| ==> ChangesAt(config, init + [last], j) == ChangesAt(config, init, j);
    assert ChangesAt(config, init + [last], |init|) == Changes(ConfigBefore(config, init + [last], |init|), last.op);
  }

  /** So it was handed the working set exactly when no call since the last that handed over changed anything. */
  lemma HandedIsCurrentIff(c: Control, calls: seq<Call>, k: nat)
    requires Inv(c.config) && SafeRun(c.config, Operations(calls)) && 0 < k <= |calls|
    requires HandsOver(c.config, calls, k - 1) && forall j :: k <= j < |calls| ==> !HandsOver(c.config, calls, j)
    ensures
      var now := ExecuteAll(c, calls);
      now.handed == PublishedAs(now.config, now.config.version) <==> forall j :: k <= j < |calls| ==> !ChangesAt(c.config, calls, j)
  {
    HandedIs(c, calls, k);
    VersionCounts(c, calls, k);
  }

  // ----- what the tables hold -----

  /**
    A save does not make up for failed ones like that: the next call that publishes and
    saves leaves the tables in agreement exactly when it is saved in full and no row blocks
    that, or saved incrementally and they already agree everywhere but on its target.
   */
  lemma NextSaveRepairsIff(c: Control, op: Op, env: Surroundings)
    requires Inv(c.config) && Safe(c.config, op) && Changes(c.config, op)
    requires Publishes(env, Apply(c.config, op)) && env.save.Saves?
    ensures
      var (after, (name, target)) := (Apply(c.config, op), SaveKey(op));
      Agrees(Execute(c, op, env).0.store, after) <==>
      if IncrementalSave(c.store, after, name, target).None?
      then !Blocked(RouteUids(RoutesLeft(c.store, after)), RouteKeys(after.routes))
           && !Blocked(ClusterUids(ClustersLeft(c.store, after)), ClusterKeys(after.clusters))
      else AgreesBut(c.store, after, TouchedRoute(name, target.value), KnownTouchedCluster(after, name, target.value))
  {
    var (after, (name, target)) := (Apply(c.config, op), SaveKey(op));
    ChangesIff(c.config, op);
    RefusedIff(c.config, op);
    RefusesNothingToChange(c.config, op);
    KeepsInvariantIff(c.config, op);
    if IncrementalSave(c.store, after, name, target).Some? {
      IncrementalAgreesIff(c.store, after, name, target.value);
    } else {
      FullSaveAgreesIff(c.store, after);
      FullSaveGoesThroughIff(c.store, after);
    }
  }

  // ----- examples -----

  function Fresh(config: WorkingSet, store: Store): Control {
    Control(config, PublishedAs(config, 0), PublishedAs(config, 0), store)
  }

  /**
    Another publisher installs version 1 while a first registration compiles, for version 1
    too: the call throws, and the route and its cluster are in the working set but neither
    published nor saved.
   */
  lemma OvertakenRegistration()
    ensures
      var empty, op := WorkingSet([], [], 0, 0), OpAddRoute(BareRequest("r", "c"), "", None);
      var (after, outcome) := Execute(Fresh(empty, NOTHING_SAVED), op, Surroundings(true, 0, 1, false, Saves));
      && outcome.Threw? && after == Fresh(empty, NOTHING_SAVED).(config := after.config)
      && |after.config.routes| == 1 && |after.config.clusters| == 1 && after.config.version == 1
  {
  }

  /**
    Nobody overtakes it, but another apply ends between its reading the change source and
    its taking the token, as in the run of `ChangeTokens.OverlapFails`: the registration
    throws, installed but neither handed to the proxy nor saved.
   */
  lemma RegistrationNotHandedOver()
    ensures
      var empty, op := WorkingSet([], [], 0, 0), OpAddRoute(BareRequest("r", "c"), "", None);
      var tokens := ChangeTokens.Run(ChangeTokens.Init(2), ChangeTokens.UpToToken([], 0, [ChangeTokens.Read(1)] + ChangeTokens.OTHER_CALL));
      var env := Surroundings(true, 0, 0, tokens.threads[0].Failed?, Saves);
      var (after, outcome) := Execute(Fresh(empty, NOTHING_SAVED), op, env);
      && outcome.Threw? && |after.installed.routes| == 1 && after.handed == PublishedAs(empty, 0) && after.store == NOTHING_SAVED
      && after.installed == PublishedAs(after.config, 1)
  {
    var empty, op := WorkingSet([], [], 0, 0), OpAddRoute(BareRequest("r", "c"), "", None);
    ChangeTokens.OverlapFails();
    var r := Apply(empty, op).routes[0];
    assert Apply(empty, op).routes == [r] && r.enabled && [r][..0] == [];
  }

  function Calm(version: int, save: SaveOutcome): Surroundings {
    Surroundings(true, version, version, false, save)
  }

  lemma RenameUnsaved(c: Control, oldId: Id, newId: Id, uid: Uid, other: Cluster, version: nat)
    requires !Blank(oldId) && !Blank(newId) && oldId != newId && other.config.id != newId
    requires c.config == TwoClusters(Plainly(oldId, uid), other, version)
    ensures
      var c' := Execute(c, RenameOnly(oldId, newId), Calm(version, SaveThrows(c.store))).0;
      c'.config == TwoClusters(other, Plainly(newId, uid), version + 1) && c'.store == c.store
  {
    FirstRenamed(oldId, newId, uid, other, version);
  }

  /** The renames that swap the names of two clusters, each answered although its save throws. */
  function UnsavedSwap(s: Store): seq<Call> {
    [Call(RenameOnly("a", "c"), Calm(0, SaveThrows(s)))]
    + ([Call(RenameOnly("b", "a"), Calm(1, SaveThrows(s)))] + ([Call(RenameOnly("c", "b"), Calm(2, SaveThrows(s)))] + []))
  }

  lemma ExecuteAllCons(c: Control, call: Call, rest: seq<Call>)
    ensures ExecuteAll(c, [call] + rest) == ExecuteAll(Execute(c, call.op, call.env).0, rest)
  {
    assert ([call] + rest)[1..] == rest;
  }

  lemma UnsavedRenameFirst(c: Control, oldId: Id, newId: Id, uid: Uid, other: Cluster, version: nat, rest: seq<Call>) returns (c': Control)
    requires !Blank(oldId) && !Blank(newId) && oldId != newId && other.config.id != newId
    requires c.config == TwoClusters(Plainly(oldId, uid), other, version)
    ensures c'.config == TwoClusters(other, Plainly(newId, uid), version + 1) && c'.store == c.store
    ensures ExecuteAll(c, [Call(RenameOnly(oldId, newId), Calm(version, SaveThrows(c.store)))] + rest) == ExecuteAll(c', rest)
  {
    var call := Call(RenameOnly(oldId, newId), Calm(version, SaveThrows(c.store)));
    c' := Execute(c, call.op, call.env).0;
    RenameUnsaved(c, oldId, newId, uid, other, version);
    ExecuteAllCons(c, call, rest);
  }

  lemma SwappedUnsaved(s: Store)
    ensures
      var c := ExecuteAll(Fresh(TwoClusters(Plainly("a", 0), Plainly("b", 1), 0), s), UnsavedSwap(s));
      c.config == TwoClusters(Plainly("a", 1), Plainly("b", 0), 3) && c.store == s
  {
    var c0 := Fresh(TwoClusters(Plainly("a", 0), Plainly("b", 1), 0), s);
    assert "a"[0] in "a" && "b"[0] in "b" && "c"[0] in "c";
    assert "a"[0] != "b"[0] && "a"[0] != "c"[0] && "b"[0] != "c"[0];
    var third := Call(RenameOnly("c", "b"), Calm(2, SaveThrows(s)));
    var second := Call(RenameOnly("b", "a"), Calm(1, SaveThrows(s)));
    var c1 := UnsavedRenameFirst(c0, "a", "c", 0, Plainly("b", 1), 0, [second] + ([third] + []));
    var c2 := UnsavedRenameFirst(c1, "b", "a", 1, Plainly("c", 0), 1, [third] + []);
    var c3 := UnsavedRenameFirst(c2, "c", "b", 0, Plainly("a", 1), 2, []);
  }

  function ImportRoute(): Op {
    OpImportBatch([], [RouteConfig("r", None, None, Some(1), [], 0)], "", None)
  }

  /** After that an import throws although nothing fails but its save, which the tables refuse. */
  lemma ImportAfterSwapThrows()
    ensures
      var ws := TwoClusters(Plainly("a", 0), Plainly("b", 1), 0);
      var s := FullSave(NOTHING_SAVED, ws).store;
      var c := ExecuteAll(Fresh(ws, s), UnsavedSwap(s));
      Agrees(s, ws) && Execute(c, ImportRoute(), Calm(3, Saves)).1.Threw?
  {
    var ws := TwoClusters(Plainly("a", 0), Plainly("b", 1), 0);
    var s := FullSave(NOTHING_SAVED, ws).store;
    var c := ExecuteAll(Fresh(ws, s), UnsavedSwap(s));
    SwappedNamesAreRefused();
    SwappedUnsaved(s);
    TwoClustersInv(Plainly("a", 1), Plainly("b", 0), 3);
    assert "a"[0] != "b"[0];
    var after := Apply(c.config, ImportRoute());
    ImportLeavesClusters(c.config);
    FindIs(after.clusters, ClusterKey, 1);
    FirstIsRefused(s, after, "b");
    ThrowsIff(c, ImportRoute(), Calm(3, Saves));
  }

  lemma ImportLeavesClusters(ws: WorkingSet)
    ensures Apply(ws, ImportRoute()).clusters == ws.clusters
  {
    var config := RouteConfig("r", None, None, Some(1), [], 0);
    assert [config][..0] == [];
  }
}
