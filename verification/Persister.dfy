/**
  Saving the working set: the full pass and the incremental one over the route, cluster and
  destination tables. Timestamps are left out; a row's author is written once and kept.
  Uids are unique in the route and in the cluster table, so a write can be refused.
 */
module Persister {
  import opened Wrappers
  import opened KeyedList
  import opened UniqueUids
  import opened WorkingSet

  // ----- rows -----

  /** What a save writes into a route's row. Whether the route is enabled is not in it. */
  datatype SavedRoute = SavedRoute(config: RouteConfig, clusterId: Id, uid: Uid, clusterUid: Option<Uid>, source: string)

  datatype SavedCluster = SavedCluster(config: ClusterConfig, uid: Uid, health: Option<int>, source: string)

  datatype RouteRow = RouteRow(saved: SavedRoute, createdBy: Option<string>)

  datatype ClusterRow = ClusterRow(saved: SavedCluster, createdBy: Option<string>)

  datatype Store = Store(routes: map<Id, RouteRow>, clusters: map<Id, ClusterRow>, destinations: map<Id, Destinations>)

  /** The whole configuration, with the cluster id once more in a column that has no null. */
  function SavedRouteOf(r: Route): SavedRoute {
    SavedRoute(r.config, if r.config.clusterId.Some? then r.config.clusterId.value else "", r.uid, r.clusterUid, r.source)
  }

  function SavedClusterOf(c: Cluster): SavedCluster {
    SavedCluster(c.config, c.uid, c.health, c.source)
  }

  // ----- loading -----

  /** A missing order loads as the largest, both ids from their columns, and the enabled flag as it defaults. */
  function LoadRoute(s: Store, id: Id): Route
    requires id in s.routes
  {
    var saved := s.routes[id].saved;
    Route(WithOrder(saved.config).(id := id, clusterId := Some(saved.clusterId)), saved.uid, saved.clusterUid, true, saved.source,
          s.routes[id].createdBy)
  }

  /** The address a destination's health is probed at has a column, but reading a row skips it. */
  function AsRead(d: Destinations): Destinations {
    map key | key in d :: d[key].(health := None)
  }

  function DestinationRows(s: Store, id: Id): Destinations {
    if id in s.destinations then s.destinations[id] else map[]
  }

  /** Destinations load from their own table, whatever the cluster's row says. */
  function LoadCluster(s: Store, id: Id): Cluster
    requires id in s.clusters
  {
    var saved := s.clusters[id].saved;
    Cluster(saved.config.(id := id, destinations := AsRead(DestinationRows(s, id))), saved.uid, saved.health, saved.source,
            s.clusters[id].createdBy)
  }

  /** The lists hold each row of the tables once, in any order. */
  ghost predicate Loads(s: Store, routes: seq<Route>, clusters: seq<Cluster>) {
    && Unique(routes, RouteKey) && Unique(clusters, ClusterKey)
    && (forall id :: FindRoute(routes, id) == if id in s.routes then Some(LoadRoute(s, id)) else None)
    && (forall id :: FindCluster(clusters, id) == if id in s.clusters then Some(LoadCluster(s, id)) else None)
  }

  // ----- agreement -----

  /** A cluster's row and its destination rows together. */
  function SavedRows(s: Store, id: Id): SavedCluster
    requires id in s.clusters
  {
    var saved := s.clusters[id].saved;
    saved.(config := saved.config.(id := id, destinations := DestinationRows(s, id)))
  }

  predicate RouteAgrees(s: Store, ws: WorkingSet, id: Id) {
    match FindRoute(ws.routes, id)
    case None => id !in s.routes
    case Some(r) => id in s.routes && s.routes[id].saved == SavedRouteOf(r)
  }

  predicate ClusterAgrees(s: Store, ws: WorkingSet, id: Id) {
    match FindCluster(ws.clusters, id)
    case None => id !in s.clusters
    case Some(c) => id in s.clusters && SavedRows(s, id) == SavedClusterOf(c)
  }

  /** The tables hold of the working set, id by id, all that rows hold of it. */
  ghost predicate Agrees(s: Store, ws: WorkingSet) {
    (forall id :: RouteAgrees(s, ws, id)) && (forall id :: ClusterAgrees(s, ws, id))
  }

  // ----- writes -----

  function RouteUids(m: map<Id, RouteRow>): map<Id, Uid> {
    map id | id in m :: m[id].saved.uid
  }

  function ClusterUids(m: map<Id, ClusterRow>): map<Id, Uid> {
    map id | id in m :: m[id].saved.uid
  }

  function RouteKeyOf(r: Route): Key { Key(r.config.id, r.uid) }

  function ClusterKeyOf(c: Cluster): Key { Key(c.config.id, c.uid) }

  function RouteKeys(routes: seq<Route>): seq<Key> {
    seq(|routes|, i requires 0 <= i < |routes| => RouteKeyOf(routes[i]))
  }

  function ClusterKeys(clusters: seq<Cluster>): seq<Key> {
    seq(|clusters|, i requires 0 <= i < |clusters| => ClusterKeyOf(clusters[i]))
  }

  function UpsertRoute(m: map<Id, RouteRow>, r: Route): map<Id, RouteRow> {
    var id := r.config.id;
    m[id := RouteRow(SavedRouteOf(r), if id in m then m[id].createdBy else r.createdBy)]
  }

  function UpsertCluster(m: map<Id, ClusterRow>, c: Cluster): map<Id, ClusterRow> {
    var id := c.config.id;
    m[id := ClusterRow(SavedClusterOf(c), if id in m then m[id].createdBy else c.createdBy)]
  }

  function UpsertRoutes(m: map<Id, RouteRow>, routes: seq<Route>): map<Id, RouteRow>
    decreases |routes|
  {
    if routes == [] then m else UpsertRoute(UpsertRoutes(m, routes[..|routes| - 1]), routes[|routes| - 1])
  }

  function UpsertClusters(m: map<Id, ClusterRow>, clusters: seq<Cluster>): map<Id, ClusterRow>
    decreases |clusters|
  {
    if clusters == [] then m else UpsertCluster(UpsertClusters(m, clusters[..|clusters| - 1]), clusters[|clusters| - 1])
  }

  function PutDestinations(m: map<Id, Destinations>, clusters: seq<Cluster>): map<Id, Destinations>
    decreases |clusters|
  {
    if clusters == [] then m
    else
      var c := clusters[|clusters| - 1];
      PutDestinations(m, clusters[..|clusters| - 1])[c.config.id := c.config.destinations]
  }

  function RouteIds(routes: seq<Route>): set<Id> {
    set r | r in routes :: r.config.id
  }

  function ClusterIds(clusters: seq<Cluster>): set<Id> {
    set c | c in clusters :: c.config.id
  }

  function RoutesLeft(s: Store, ws: WorkingSet): map<Id, RouteRow> {
    s.routes - (s.routes.Keys - RouteIds(ws.routes))
  }

  function StaleClusters(s: Store, ws: WorkingSet): set<Id> {
    s.clusters.Keys - ClusterIds(ws.clusters)
  }

  function ClustersLeft(s: Store, ws: WorkingSet): map<Id, ClusterRow> {
    s.clusters - StaleClusters(s, ws)
  }

  /** What a pass leaves, and whether it went through rather than throwing. */
  datatype Pass = Pass(store: Store, done: bool)

  /**
    The full pass: stale rows go, then every record is written, the routes in one
    transaction and the clusters in another. It ends where a write is refused.
   */
  function FullSave(s: Store, ws: WorkingSet): Pass {
    var routes, clusters := RoutesLeft(s, ws), ClustersLeft(s, ws);
    if !Fits(RouteUids(routes), RouteKeys(ws.routes)) then Pass(s.(routes := routes), false)
    else
      var s1 := Store(UpsertRoutes(routes, ws.routes), clusters, s.destinations - StaleClusters(s, ws));
      if !Fits(ClusterUids(clusters), ClusterKeys(ws.clusters)) then Pass(s1, false)
      else
        Pass(s1.(clusters := UpsertClusters(clusters, ws.clusters), destinations := PutDestinations(s1.destinations, ws.clusters)), true)
  }

  function SaveCluster(s: Store, c: Cluster): Pass {
    if !Free(ClusterUids(s.clusters), ClusterKeyOf(c)) then Pass(s, false)
    else
      Pass(s.(clusters := UpsertCluster(s.clusters, c), destinations := s.destinations[c.config.id := c.config.destinations]), true)
  }

  predicate SavesRoute(name: string) { name == "AddOrUpdateRoute" }

  predicate SavesCluster(name: string) {
    name in ["AddCluster", "UpdateCluster", "CreateCluster", "UpdateClusterCircuitBreaker"]
  }

  /** The cluster a saved route takes along. */
  function ClusterOfRoute(ws: WorkingSet, r: Route): Option<Cluster> {
    if r.config.clusterId.None? || r.config.clusterId.value == "" then None else FindCluster(ws.clusters, r.config.clusterId.value)
  }

  function SaveRoute(s: Store, ws: WorkingSet, r: Route): Pass {
    if !Free(RouteUids(s.routes), RouteKeyOf(r)) then Pass(s, false)
    else
      var s1 := s.(routes := UpsertRoute(s.routes, r));
      match ClusterOfRoute(ws, r)
      case None => Pass(s1, true)
      case Some(c) => SaveCluster(s1, c)
  }

  /** The incremental pass, when the operation and its target allow one. */
  function IncrementalSave(s: Store, ws: WorkingSet, name: string, target: Option<Id>): Option<Pass> {
    if target.None? || Blank(target.value) then None
    else if SavesRoute(name) then
      match FindRoute(ws.routes, target.value)
      case None => None
      case Some(r) => Some(SaveRoute(s, ws, r))
    else if SavesCluster(name) then
      match FindCluster(ws.clusters, target.value)
      case None => None
      case Some(c) => Some(SaveCluster(s, c))
    else None
  }

  function Save(s: Store, ws: WorkingSet, name: string, target: Option<Id>): Pass {
    var incremental := IncrementalSave(s, ws, name, target);
    if incremental.Some? then incremental.value else FullSave(s, ws)
  }

  lemma {:induction false} RoutesWritten(m: map<Id, RouteRow>, routes: seq<Route>)
    ensures RouteUids(UpsertRoutes(m, routes)) == Written(RouteUids(m), RouteKeys(routes))
    decreases |routes|
  {
    if routes != [] {
      var init, last := routes[..|routes| - 1], routes[|routes| - 1];
      RoutesWritten(m, init);
      assert RouteKeys(routes)[..|routes| - 1] == RouteKeys(init);
      assert RouteUids(UpsertRoute(UpsertRoutes(m, init), last)) == RouteUids(UpsertRoutes(m, init))[last.config.id := last.uid];
    }
  }

  lemma {:induction false} ClustersWritten(m: map<Id, ClusterRow>, clusters: seq<Cluster>)
    ensures ClusterUids(UpsertClusters(m, clusters)) == Written(ClusterUids(m), ClusterKeys(clusters))
    decreases |clusters|
  {
    if clusters != [] {
      var init, last := clusters[..|clusters| - 1], clusters[|clusters| - 1];
      ClustersWritten(m, init);
      assert ClusterKeys(clusters)[..|clusters| - 1] == ClusterKeys(init);
      assert ClusterUids(UpsertCluster(UpsertClusters(m, init), last)) ==
             ClusterUids(UpsertClusters(m, init))[last.config.id := last.uid];
    }
  }

  /** A transaction that has written some records is refused as soon as one does not fit. */
  lemma {:induction false} FitsPrefix(m: map<Id, Uid>, keys: seq<Key>, n: nat)
    requires n <= |keys| && Fits(m, keys)
    ensures Fits(m, keys[..n])
    decreases |keys|
  {
    if n < |keys| {
      FitsPrefix(m, keys[..|keys| - 1], n);
      assert keys[..|keys| - 1][..n] == keys[..n];
    } else {
      assert keys[..n] == keys;
    }
  }

  // ----- the repositories and the passes over them -----

  class Repositories {
    var routes: map<Id, RouteRow>
    var clusters: map<Id, ClusterRow>
    var destinations: map<Id, Destinations>

    function Contents(): Store
      reads this
    {
      Store(routes, clusters, destinations)
    }

    /** All ids of the route table, in an order of its own. */
    method GetAllRoutes() returns (ids: seq<Id>)
      ensures forall id :: id in ids <==> id in routes
      ensures NoRepeats(ids)
    {
      ids := AsSequence(routes.Keys);
    }

    method GetAllClusters() returns (ids: seq<Id>)
      ensures forall id :: id in ids <==> id in clusters
      ensures NoRepeats(ids)
    {
      ids := AsSequence(clusters.Keys);
    }

    /** One statement; the unique index refuses it. */
    method SaveRoute(r: Route) returns (done: bool)
      modifies this`routes
      ensures done <==> Free(RouteUids(old(routes)), RouteKeyOf(r))
      ensures routes == if done then UpsertRoute(old(routes), r) else old(routes)
    {
      done := Free(RouteUids(routes), RouteKeyOf(r));
      if done {
        var createdBy := if r.config.id in routes then routes[r.config.id].createdBy else r.createdBy;
        routes := routes[r.config.id := RouteRow(SavedRouteOf(r), createdBy)];
      }
    }

    /** One transaction, rolled back when a statement is refused. */
    method SaveRoutes(records: seq<Route>) returns (done: bool)
      modifies this`routes
      ensures done <==> Fits(RouteUids(old(routes)), RouteKeys(records))
      ensures routes == if done then UpsertRoutes(old(routes), records) else old(routes)
    {
      var before := routes;
      var i := 0;
      while i < |records|
        invariant i <= |records| && routes == UpsertRoutes(before, records[..i])
        invariant Fits(RouteUids(before), RouteKeys(records[..i]))
      {
        RouteFitsNext(before, records, i);
        done := SaveRoute(records[i]);
        if !done {
          routes := before;
          return;
        }
        i := i + 1;
      }
      assert records[..i] == records;
      done := true;
    }

    method SaveClusterRow(c: Cluster) returns (done: bool)
      modifies this`clusters
      ensures done <==> Free(ClusterUids(old(clusters)), ClusterKeyOf(c))
      ensures clusters == if done then UpsertCluster(old(clusters), c) else old(clusters)
    {
      done := Free(ClusterUids(clusters), ClusterKeyOf(c));
      if done {
        var createdBy := if c.config.id in clusters then clusters[c.config.id].createdBy else c.createdBy;
        clusters := clusters[c.config.id := ClusterRow(SavedClusterOf(c), createdBy)];
      }
    }

    method SaveClusters(records: seq<Cluster>) returns (done: bool)
      modifies this`clusters
      ensures done <==> Fits(ClusterUids(old(clusters)), ClusterKeys(records))
      ensures clusters == if done then UpsertClusters(old(clusters), records) else old(clusters)
    {
      var before := clusters;
      var i := 0;
      while i < |records|
        invariant i <= |records| && clusters == UpsertClusters(before, records[..i])
        invariant Fits(ClusterUids(before), ClusterKeys(records[..i]))
      {
        ClusterFitsNext(before, records, i);
        done := SaveClusterRow(records[i]);
        if !done {
          clusters := before;
          return;
        }
        i := i + 1;
      }
      assert records[..i] == records;
      done := true;
    }
  }

  /** The next statement of the transaction, and what it means for the rest. */
  lemma RouteFitsNext(m: map<Id, RouteRow>, routes: seq<Route>, i: nat)
    requires i < |routes| && Fits(RouteUids(m), RouteKeys(routes[..i]))
    ensures UpsertRoutes(m, routes[..i + 1]) == UpsertRoute(UpsertRoutes(m, routes[..i]), routes[i])
    ensures Fits(RouteUids(m), RouteKeys(routes[..i + 1])) <==> Free(RouteUids(UpsertRoutes(m, routes[..i])), RouteKeyOf(routes[i]))
    ensures !Free(RouteUids(UpsertRoutes(m, routes[..i])), RouteKeyOf(routes[i])) ==> !Fits(RouteUids(m), RouteKeys(routes))
  {
    assert routes[..i + 1][..i] == routes[..i];
    assert RouteKeys(routes[..i + 1])[..i] == RouteKeys(routes[..i]);
    RoutesWritten(m, routes[..i]);
    if Fits(RouteUids(m), RouteKeys(routes)) {
      FitsPrefix(RouteUids(m), RouteKeys(routes), i + 1);
      assert RouteKeys(routes)[..i + 1] == RouteKeys(routes[..i + 1]);
    }
  }

  lemma ClusterFitsNext(m: map<Id, ClusterRow>, clusters: seq<Cluster>, i: nat)
    requires i < |clusters| && Fits(ClusterUids(m), ClusterKeys(clusters[..i]))
    ensures UpsertClusters(m, clusters[..i + 1]) == UpsertCluster(UpsertClusters(m, clusters[..i]), clusters[i])
    ensures Fits(ClusterUids(m), ClusterKeys(clusters[..i + 1])) <==>
            Free(ClusterUids(UpsertClusters(m, clusters[..i])), ClusterKeyOf(clusters[i]))
    ensures !Free(ClusterUids(UpsertClusters(m, clusters[..i])), ClusterKeyOf(clusters[i])) ==>
              !Fits(ClusterUids(m), ClusterKeys(clusters))
  {
    assert clusters[..i + 1][..i] == clusters[..i];
    assert ClusterKeys(clusters[..i + 1])[..i] == ClusterKeys(clusters[..i]);
    ClustersWritten(m, clusters[..i]);
    if Fits(ClusterUids(m), ClusterKeys(clusters)) {
      FitsPrefix(ClusterUids(m), ClusterKeys(clusters), i + 1);
      assert ClusterKeys(clusters)[..i + 1] == ClusterKeys(clusters[..i + 1]);
    }
  }

  ghost predicate NoRepeats(ids: seq<Id>) {
    forall i, j :: 0 <= i < j < |ids| ==> ids[i] != ids[j]
  }

  lemma ListsOneMore(ids: set<Id>, left: set<Id>, s: seq<Id>, id: Id)
    requires left <= ids && id in left && NoRepeats(s) && forall x :: x in s <==> x in ids - left
    ensures forall x :: x in s + [id] <==> x in ids - (left - {id})
    ensures NoRepeats(s + [id])
  {
    assert id !in ids - left;
    forall x
      ensures x in s + [id] <==> x in ids - (left - {id})
    {
      assert x in s + [id] <==> x in s || x == id;
      assert x in s <==> x in ids - left;
    }
  }

  method AsSequence(ids: set<Id>) returns (s: seq<Id>)
    ensures forall id :: id in s <==> id in ids
    ensures NoRepeats(s)
  {
    s := [];
    var left := ids;
    while left != {}
      invariant left <= ids && forall id :: id in s <==> id in ids - left
      invariant NoRepeats(s)
      decreases |left|
    {
      var id :| id in left;
      ListsOneMore(ids, left, s, id);
      s, left := s + [id], left - {id};
    }
  }

  /** Records listed by distinct ids are found by them. */
  lemma ListedOnce<T>(ids: seq<Id>, records: seq<T>, key: T -> Id)
    requires |records| == |ids| && NoRepeats(ids) && forall k :: 0 <= k < |ids| ==> key(records[k]) == ids[k]
    ensures Unique(records, key)
    ensures forall id :: Find(records, key, id).Some? <==> id in ids
    ensures forall k :: 0 <= k < |ids| ==> Find(records, key, ids[k]) == Some(records[k])
  {
    forall k | 0 <= k < |ids|
      ensures Find(records, key, ids[k]) == Some(records[k])
    {
      FindIs(records, key, k);
    }
  }

  lemma AllFound(s: Store, routeIds: seq<Id>, routes: seq<Route>, clusterIds: seq<Id>, clusters: seq<Cluster>)
    requires Unique(routes, RouteKey) && Unique(clusters, ClusterKey)
    requires forall id :: id in routeIds <==> id in s.routes
    requires forall id :: id in clusterIds <==> id in s.clusters
    requires forall id :: FindRoute(routes, id).Some? <==> id in routeIds
    requires forall id :: FindCluster(clusters, id).Some? <==> id in clusterIds
    requires |routes| == |routeIds| && |clusters| == |clusterIds|
    requires forall k :: 0 <= k < |routeIds| ==> FindRoute(routes, routeIds[k]) == Some(LoadRoute(s, routeIds[k]))
    requires forall k :: 0 <= k < |clusterIds| ==> FindCluster(clusters, clusterIds[k]) == Some(LoadCluster(s, clusterIds[k]))
    ensures Loads(s, routes, clusters)
  {
  }

  class DynamicConfigPersister {
    const repo: Repositories

    constructor (repo: Repositories)
      ensures this.repo == repo
    {
      this.repo := repo;
    }

    /** The records of all rows, destinations from their own table. */
    method LoadAsync() returns (routes: seq<Route>, clusters: seq<Cluster>)
      ensures Loads(repo.Contents(), routes, clusters)
    {
      var routeIds := repo.GetAllRoutes();
      routes := LoadRoutes(routeIds);
      ListedOnce(routeIds, routes, RouteKey);
      var clusterIds := repo.GetAllClusters();
      clusters := LoadClusters(clusterIds);
      ListedOnce(clusterIds, clusters, ClusterKey);
      AllFound(repo.Contents(), routeIds, routes, clusterIds, clusters);
    }

    method LoadRoutes(ids: seq<Id>) returns (routes: seq<Route>)
      requires forall id :: id in ids ==> id in repo.routes
      ensures |routes| == |ids| && forall k :: 0 <= k < |ids| ==> routes[k] == LoadRoute(repo.Contents(), ids[k])
    {
      routes := [];
      while |routes| < |ids|
        invariant |routes| <= |ids| && forall k :: 0 <= k < |routes| ==> routes[k] == LoadRoute(repo.Contents(), ids[k])
      {
        routes := routes + [LoadRoute(repo.Contents(), ids[|routes|])];
      }
    }

    method LoadClusters(ids: seq<Id>) returns (clusters: seq<Cluster>)
      requires forall id :: id in ids ==> id in repo.clusters
      ensures |clusters| == |ids| && forall k :: 0 <= k < |ids| ==> clusters[k] == LoadCluster(repo.Contents(), ids[k])
    {
      clusters := [];
      while |clusters| < |ids|
        invariant |clusters| <= |ids| && forall k :: 0 <= k < |clusters| ==> clusters[k] == LoadCluster(repo.Contents(), ids[k])
      {
        clusters := clusters + [LoadCluster(repo.Contents(), ids[|clusters|])];
      }
    }

    /** `done` is false when a refused write makes it throw. */
    method SaveAsync(config: WorkingSet, operationName: string, targetName: Option<Id>) returns (done: bool)
      modifies repo
      ensures Pass(repo.Contents(), done) == Save(old(repo.Contents()), config, operationName, targetName)
    {
      var applies;
      applies, done := TryPersistIncremental(config, operationName, targetName);
      if applies {
        return;
      }
      DeleteStaleRoutes(RouteIds(config.routes));
      done := repo.SaveRoutes(config.routes);
      if !done {
        return;
      }
      DeleteStaleClusters(ClusterIds(config.clusters));
      done := repo.SaveClusters(config.clusters);
      if done {
        SaveDestinations(config.clusters);
      }
    }

    method TryPersistIncremental(config: WorkingSet, operationName: string, targetName: Option<Id>) returns (applies: bool, done: bool)
      modifies repo
      ensures applies <==> IncrementalSave(old(repo.Contents()), config, operationName, targetName).Some?
      ensures if applies
              then Some(Pass(repo.Contents(), done)) == IncrementalSave(old(repo.Contents()), config, operationName, targetName)
              else repo.Contents() == old(repo.Contents())
    {
      applies, done := false, true;
      if targetName.None? || Blank(targetName.value) {
        return;
      }
      if operationName == "AddOrUpdateRoute" {
        var route := FindRoute(config.routes, targetName.value);
        if route.Some? {
          applies := true;
          done := PersistRoute(config, route.value);
        }
      } else if operationName in ["AddCluster", "UpdateCluster", "CreateCluster", "UpdateClusterCircuitBreaker"] {
        var cluster := FindCluster(config.clusters, targetName.value);
        if cluster.Some? {
          applies := true;
          done := PersistCluster(cluster.value);
        }
      }
    }

    method PersistRoute(config: WorkingSet, route: Route) returns (done: bool)
      modifies repo
      ensures Pass(repo.Contents(), done) == SaveRoute(old(repo.Contents()), config, route)
    {
      done := repo.SaveRoute(route);
      var clusterId := route.config.clusterId;
      if done && clusterId.Some? && clusterId.value != "" {
        var cluster := FindCluster(config.clusters, clusterId.value);
        if cluster.Some? {
          done := PersistCluster(cluster.value);
        }
      }
    }

    method PersistCluster(cluster: Cluster) returns (done: bool)
      modifies repo`clusters, repo`destinations
      ensures Pass(repo.Contents(), done) == SaveCluster(old(repo.Contents()), cluster)
    {
      done := repo.SaveClusterRow(cluster);
      if done {
        repo.destinations := repo.destinations[cluster.config.id := cluster.config.destinations];
      }
    }

    method DeleteStaleRoutes(targetIds: set<Id>)
      modifies repo`routes
      ensures repo.routes == old(repo.routes) - (old(repo.routes).Keys - targetIds)
    {
      var existing := repo.GetAllRoutes();
      var i := 0;
      while i < |existing|
        invariant i <= |existing|
        invariant repo.routes == old(repo.routes) - (set id | id in existing[..i] && id !in targetIds)
      {
        assert existing[..i + 1] == existing[..i] + [existing[i]];
        if existing[i] !in targetIds {
          repo.routes := repo.routes - {existing[i]};
        }
        i := i + 1;
      }
      assert existing[..i] == existing;
    }

    method DeleteStaleClusters(targetIds: set<Id>)
      modifies repo`clusters, repo`destinations
      ensures repo.clusters == old(repo.clusters) - (old(repo.clusters).Keys - targetIds)
      ensures repo.destinations == old(repo.destinations) - (old(repo.clusters).Keys - targetIds)
    {
      var existing := repo.GetAllClusters();
      var i := 0;
      while i < |existing|
        invariant i <= |existing|
        invariant repo.clusters == old(repo.clusters) - (set id | id in existing[..i] && id !in targetIds)
        invariant repo.destinations == old(repo.destinations) - (set id | id in existing[..i] && id !in targetIds)
      {
        assert existing[..i + 1] == existing[..i] + [existing[i]];
        if existing[i] !in targetIds {
          repo.destinations := repo.destinations - {existing[i]};
          repo.clusters := repo.clusters - {existing[i]};
        }
        i := i + 1;
      }
      assert existing[..i] == existing;
    }

    method SaveDestinations(clusters: seq<Cluster>)
      modifies repo`destinations
      ensures repo.destinations == PutDestinations(old(repo.destinations), clusters)
    {
      var i := 0;
      while i < |clusters|
        invariant i <= |clusters| && repo.destinations == PutDestinations(old(repo.destinations), clusters[..i])
      {
        assert clusters[..i + 1][..i] == clusters[..i];
        repo.destinations := repo.destinations[clusters[i].config.id := clusters[i].config.destinations];
        i := i + 1;
      }
      assert clusters[..i] == clusters;
    }
  }
}
