/**
  The provider of proxy configurations: native configurations are immutable objects, and
  the metadata records of a snapshot refer to the very objects the snapshot lists.
 */
module Provider {
  import opened Wrappers
  import opened KeyedList
  import WorkingSet

  type RouteConfig = WorkingSet.RouteConfig

  type ClusterConfig = WorkingSet.ClusterConfig

  function RouteId(c: RouteConfig): Id { c.id }

  function ClusterId(c: ClusterConfig): Id { c.id }

  class Native<C> {
    const value: C

    constructor (value: C)
      ensures this.value == value
    {
      this.value := value;
    }
  }

  /** A dynamic record; what else it holds stays with the object. */
  class Record<C> {
    var config: Native<C>

    constructor (config: Native<C>)
      ensures this.config == config
    {
      this.config := config;
    }
  }

  class ChangeSource {
    var cancelled: bool
    var disposed: bool

    constructor ()
      ensures !cancelled && !disposed
    {
      cancelled, disposed := false, false;
    }

    method Cancel()
      modifies this`cancelled
      ensures cancelled
    {
      cancelled := true;
    }

    method Dispose()
      modifies this`disposed
      ensures disposed
    {
      disposed := true;
    }
  }

  datatype Snapshot = Snapshot(
    routes: seq<Native<RouteConfig>>, clusters: seq<Native<ClusterConfig>>,
    dynamicRoutes: seq<Record<RouteConfig>>, dynamicClusters: seq<Record<ClusterConfig>>,
    token: ChangeSource, version: int)

  /** The objects the records refer to. */
  function ConfigsOf<C(!new)>(records: seq<Record<C>>): (r: seq<Native<C>>)
    reads records
    ensures |r| == |records| && forall i :: 0 <= i < |records| ==> r[i] == records[i].config
  {
    seq(|records|, i requires 0 <= i < |records| reads records => records[i].config)
  }

  /** Each listed configuration is the object its record refers to. */
  ghost predicate Aliased<C(!new)>(natives: seq<Native<C>>, records: seq<Record<C>>)
    reads records
  {
    natives == ConfigsOf(records)
  }

  function IdOf<C>(key: C -> Id, r: Record<C>): Id
    reads r
  {
    key(r.config.value)
  }

  ghost predicate DistinctIds<C(!new)>(key: C -> Id, records: seq<Record<C>>)
    reads records
  {
    forall i, j :: 0 <= i < j < |records| ==> IdOf(key, records[i]) != IdOf(key, records[j])
  }

  /** `ToDictionary`, which throws when an id repeats. */
  method ById<C(!new)>(key: C -> Id, records: seq<Record<C>>) returns (m: map<Id, Record<C>>)
    requires DistinctIds(key, records)
    ensures forall k :: 0 <= k < |records| ==> IdOf(key, records[k]) in m && m[IdOf(key, records[k])] == records[k]
    ensures forall id :: id in m ==> m[id] in records && IdOf(key, m[id]) == id
  {
    m := map[];
    var i := 0;
    while i < |records|
      invariant i <= |records|
      invariant forall k :: 0 <= k < i ==> IdOf(key, records[k]) in m && m[IdOf(key, records[k])] == records[k]
      invariant forall id :: id in m ==> m[id] in records && IdOf(key, m[id]) == id
    {
      m := m[IdOf(key, records[i]) := records[i]];
      i := i + 1;
    }
  }

  /** No later input has the id of the one at a position. */
  predicate LastOfItsId<C(!new)>(key: C -> Id, inputs: seq<Native<C>>, i: nat)
    requires i < |inputs|
  {
    forall j :: i < j < |inputs| ==> key(inputs[j].value) != key(inputs[i].value)
  }

  /** New records for new inputs; a known id keeps its record, edited in place. */
  method Realign<C(!new)>(key: C -> Id, m: map<Id, Record<C>>, inputs: seq<Native<C>>) returns (records: seq<Record<C>>)
    requires forall a, b :: a in m && b in m && a != b ==> m[a] != m[b]
    modifies m.Values
    ensures |records| == |inputs|
    ensures forall i :: 0 <= i < |inputs| ==>
      var id := key(inputs[i].value); if id in m then records[i] == m[id] else fresh(records[i])
    ensures forall i :: 0 <= i < |inputs| && LastOfItsId(key, inputs, i) ==> records[i].config == inputs[i]
  {
    records := [];
    var n := 0;
    while n < |inputs|
      invariant n <= |inputs| && |records| == n
      invariant forall i :: 0 <= i < n ==>
        var id := key(inputs[i].value); if id in m then records[i] == m[id] else fresh(records[i])
      invariant forall i :: 0 <= i < n && LastOfItsId(key, inputs[..n], i) ==> records[i].config == inputs[i]
    {
      var input := inputs[n];
      var id := key(input.value);
      assert forall i :: 0 <= i < n && LastOfItsId(key, inputs[..n + 1], i) ==>
        LastOfItsId(key, inputs[..n], i) && key(inputs[i].value) != id by {
        EarlierLast(key, inputs, n);
      }
      if id in m {
        m[id].config := input;
        records := records + [m[id]];
      } else {
        var r := new Record<C>(input);
        records := records + [r];
      }
      n := n + 1;
    }
    assert inputs[..n] == inputs;
  }

  lemma EarlierLast<C(!new)>(key: C -> Id, inputs: seq<Native<C>>, n: nat)
    requires n < |inputs|
    ensures forall i :: 0 <= i < n && LastOfItsId(key, inputs[..n + 1], i) ==>
              LastOfItsId(key, inputs[..n], i) && key(inputs[i].value) != key(inputs[n].value)
  {
    forall i | 0 <= i < n && LastOfItsId(key, inputs[..n + 1], i)
      ensures LastOfItsId(key, inputs[..n], i) && key(inputs[i].value) != key(inputs[n].value)
    {
      assert inputs[..n + 1][n] == inputs[n];
      forall j | i < j < n
        ensures key(inputs[..n][j].value) != key(inputs[..n][i].value)
      {
        assert inputs[..n + 1][j] == inputs[..n][j];
      }
    }
  }

  predicate NoRepeats<C(!new)>(key: C -> Id, inputs: seq<Native<C>>) {
    forall i :: 0 <= i < |inputs| ==> LastOfItsId(key, inputs, i)
  }

  function Ids<C(!new)>(key: C -> Id, records: seq<Record<C>>): seq<Id>
    reads records
  {
    seq(|records|, i requires 0 <= i < |records| reads records => IdOf(key, records[i]))
  }

  /** A record that was known under the id of an input is still the record of that input. */
  ghost predicate Survives<C(!new)>(key: C -> Id, ids: seq<Id>, known: seq<Record<C>>, inputs: seq<Native<C>>, records: seq<Record<C>>) {
    && |ids| == |known| && |records| == |inputs|
    && forall i, k :: 0 <= i < |inputs| && 0 <= k < |known| && ids[k] == key(inputs[i].value) ==> records[i] == known[k]
  }

  lemma StaysDistinct<C(!new)>(key: C -> Id, records: seq<Record<C>>, inputs: seq<Native<C>>)
    requires |records| == |inputs| && NoRepeats(key, inputs)
    requires forall i :: 0 <= i < |inputs| ==> records[i].config == inputs[i]
    ensures DistinctIds(key, records)
  {
    forall i, j | 0 <= i < j < |records|
      ensures IdOf(key, records[i]) != IdOf(key, records[j])
    {
      assert LastOfItsId(key, inputs, i);
    }
  }

  /** Listed are the inputs themselves, of inputs with one id at least the last. */
  ghost predicate Lists<C(!new)>(key: C -> Id, inputs: seq<Native<C>>, listed: seq<Native<C>>) {
    |listed| == |inputs| && forall i :: 0 <= i < |inputs| && LastOfItsId(key, inputs, i) ==> listed[i] == inputs[i]
  }

  /** Likewise for routes, where one without an order is listed with the largest instead. */
  ghost predicate ListsRoutes(inputs: seq<Native<RouteConfig>>, listed: seq<Native<RouteConfig>>) {
    |listed| == |inputs| && forall i :: 0 <= i < |inputs| && LastOfItsId(RouteId, inputs, i) ==>
      listed[i].value == WorkingSet.WithOrder(inputs[i].value) && (inputs[i].value.order.Some? ==> listed[i] == inputs[i])
  }

  /** The records for a list of inputs, out of the records there are. */
  method Rebuild<C(!new)>(key: C -> Id, known: seq<Record<C>>, inputs: seq<Native<C>>) returns (records: seq<Record<C>>)
    requires DistinctIds(key, known)
    modifies known
    ensures Survives(key, old(Ids(key, known)), known, inputs, records) && Lists(key, inputs, ConfigsOf(records))
    ensures NoRepeats(key, inputs) ==> DistinctIds(key, records)
  {
    var m := ById(key, known);
    records := Realign(key, m, inputs);
    if NoRepeats(key, inputs) {
      StaysDistinct(key, records, inputs);
    }
  }

  /** A route without an order is replaced by one with the largest. */
  method WithOrders(routes: seq<Native<RouteConfig>>) returns (r: seq<Native<RouteConfig>>)
    ensures |r| == |routes|
    ensures forall i :: 0 <= i < |routes| ==>
      r[i].value == WorkingSet.WithOrder(routes[i].value) && (routes[i].value.order.Some? ==> r[i] == routes[i])
  {
    r := [];
    var i := 0;
    while i < |routes|
      invariant i <= |routes| && |r| == i
      invariant forall k :: 0 <= k < i ==>
        r[k].value == WorkingSet.WithOrder(routes[k].value) && (routes[k].value.order.Some? ==> r[k] == routes[k])
    {
      var normalized := routes[i];
      if normalized.value.order.None? {
        normalized := new Native(normalized.value.(order := Some(WorkingSet.MAX_ORDER)));
      }
      r := r + [normalized];
      i := i + 1;
    }
  }

  method RebuildRoutes(known: seq<Record<RouteConfig>>, routes: seq<Native<RouteConfig>>) returns (records: seq<Record<RouteConfig>>)
    requires DistinctIds(RouteId, known)
    modifies known
    ensures Survives(RouteId, old(Ids(RouteId, known)), known, routes, records) && ListsRoutes(routes, ConfigsOf(records))
    ensures NoRepeats(RouteId, routes) ==> DistinctIds(RouteId, records)
  {
    var normalized := WithOrders(routes);
    assert forall i :: 0 <= i < |routes| && LastOfItsId(RouteId, routes, i) ==> LastOfItsId(RouteId, normalized, i);
    records := Rebuild(RouteId, known, normalized);
  }

  method RebuildBoth(knownRoutes: seq<Record<RouteConfig>>, routes: seq<Native<RouteConfig>>,
                     knownClusters: seq<Record<ClusterConfig>>, clusters: seq<Native<ClusterConfig>>)
    returns (dynRoutes: seq<Record<RouteConfig>>, dynClusters: seq<Record<ClusterConfig>>)
    requires DistinctIds(RouteId, knownRoutes) && DistinctIds(ClusterId, knownClusters)
    modifies knownRoutes, knownClusters
    ensures Survives(RouteId, old(Ids(RouteId, knownRoutes)), knownRoutes, routes, dynRoutes)
    ensures Survives(ClusterId, old(Ids(ClusterId, knownClusters)), knownClusters, clusters, dynClusters)
    ensures ListsRoutes(routes, ConfigsOf(dynRoutes)) && Lists(ClusterId, clusters, ConfigsOf(dynClusters))
    ensures NoRepeats(RouteId, routes) ==> DistinctIds(RouteId, dynRoutes)
    ensures NoRepeats(ClusterId, clusters) ==> DistinctIds(ClusterId, dynClusters)
  {
    dynRoutes := RebuildRoutes(knownRoutes, routes);
    dynClusters := Rebuild(ClusterId, knownClusters, clusters);
  }

  method Configs<C(!new)>(records: seq<Record<C>>) returns (natives: seq<Native<C>>)
    ensures Aliased(natives, records)
  {
    natives := [];
    var i := 0;
    while i < |records|
      invariant i <= |records| && |natives| == i && forall k :: 0 <= k < i ==> natives[k] == records[k].config
    {
      natives := natives + [records[i].config];
      i := i + 1;
    }
    assert natives == ConfigsOf(records);
  }

  class AneiangProxyConfigProvider {
    var current: Snapshot
    var changeTokenSource: ChangeSource

    /** The installed snapshot is aliased, and its change source is the current one, not yet signalled. */
    ghost predicate Valid()
      reads this, changeTokenSource, current.dynamicRoutes, current.dynamicClusters
    {
      && Aliased(current.routes, current.dynamicRoutes) && Aliased(current.clusters, current.dynamicClusters)
      && current.token == changeTokenSource && !changeTokenSource.cancelled && !changeTokenSource.disposed
    }

    constructor ()
      ensures Valid() && current.routes == [] && current.clusters == [] && fresh(changeTokenSource)
    {
      var source := new ChangeSource();
      changeTokenSource := source;
      current := Snapshot([], [], [], [], source, 0);
    }

    method CreateSnapshot(dynRoutes: seq<Record<RouteConfig>>, dynClusters: seq<Record<ClusterConfig>>, version: int)
      returns (snapshot: Snapshot)
      requires !changeTokenSource.disposed
      ensures snapshot.dynamicRoutes == dynRoutes && snapshot.dynamicClusters == dynClusters && snapshot.version == version
      ensures Aliased(snapshot.routes, dynRoutes) && Aliased(snapshot.clusters, dynClusters)
    {
      var routes := Configs(dynRoutes);
      var clusters := Configs(dynClusters);
      snapshot := Snapshot(routes, clusters, dynRoutes, dynClusters, changeTokenSource, version);
    }

    /** Installs a snapshot under a new change source, and signals the one it replaces. */
    method ApplySnapshot(snapshot: Snapshot)
      modifies this, changeTokenSource
      ensures current == snapshot.(token := changeTokenSource)
      ensures fresh(changeTokenSource) && !changeTokenSource.cancelled && !changeTokenSource.disposed
      ensures old(changeTokenSource).cancelled && old(changeTokenSource).disposed
    {
      var newSource := new ChangeSource();
      var oldSource := changeTokenSource;
      changeTokenSource := newSource;
      current := snapshot.(token := newSource);
      oldSource.Cancel();
      oldSource.Dispose();
    }

    method ApplyFromDynamic(dynRoutes: seq<Record<RouteConfig>>, dynClusters: seq<Record<ClusterConfig>>, version: int)
      requires !changeTokenSource.disposed
      modifies this, changeTokenSource
      ensures Valid() && fresh(changeTokenSource) && old(changeTokenSource).cancelled
      ensures current.dynamicRoutes == dynRoutes && current.dynamicClusters == dynClusters && current.version == version
    {
      var snapshot := CreateSnapshot(dynRoutes, dynClusters, version);
      ApplySnapshot(snapshot);
    }

    /** Ids must not repeat in the installed snapshot; in the input they may. */
    method Update(routes: seq<Native<RouteConfig>>, clusters: seq<Native<ClusterConfig>>)
      requires Valid() && DistinctIds(RouteId, current.dynamicRoutes) && DistinctIds(ClusterId, current.dynamicClusters)
      modifies this, changeTokenSource, current.dynamicRoutes, current.dynamicClusters
      ensures Valid() && fresh(changeTokenSource) && old(changeTokenSource).cancelled
      ensures current.version == old(current.version) + 1
      ensures ListsRoutes(routes, current.routes) && Lists(ClusterId, clusters, current.clusters)
      ensures Survives(RouteId, old(Ids(RouteId, current.dynamicRoutes)), old(current.dynamicRoutes), routes, current.dynamicRoutes)
      ensures Survives(ClusterId, old(Ids(ClusterId, current.dynamicClusters)), old(current.dynamicClusters), clusters,
                       current.dynamicClusters)
      ensures NoRepeats(RouteId, routes) ==> DistinctIds(RouteId, current.dynamicRoutes)
      ensures NoRepeats(ClusterId, clusters) ==> DistinctIds(ClusterId, current.dynamicClusters)
    {
      var dynRoutes, dynClusters := RebuildBoth(current.dynamicRoutes, routes, current.dynamicClusters, clusters);
      ApplyFromDynamic(dynRoutes, dynClusters, current.version + 1);
    }
  }
}
