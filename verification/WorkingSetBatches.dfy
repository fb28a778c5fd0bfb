/** The operations on many records at once: what they leave behind, and the invariant. */
module WorkingSetBatches {
  import opened Wrappers
  import opened KeyedList
  import opened WorkingSet
  import opened WorkingSetInvariant

  // ----- import -----

  lemma GrowsTransitive(a: seq<Cluster>, b: seq<Cluster>, c: seq<Cluster>, n: Uid, m: Uid)
    requires Grows(a, b, n) && Grows(b, c, m) && n <= m
    ensures Grows(a, c, n)
  {
    forall id
      ensures match FindCluster(c, id)
              case None => FindCluster(a, id).None?
              case Some(x) => if FindCluster(a, id).Some? then x.uid == FindCluster(a, id).value.uid else x.uid >= n
    {
      assert FindCluster(a, id).Some? ==> FindCluster(b, id).Some?;
    }
  }

  lemma {:induction false} ImportClustersKeeps(ws: WorkingSet, clusters: seq<ClusterConfig>, source: string, createdBy: Option<string>)
    requires Inv(ws)
    ensures var after := ImportClusters(ws, clusters, source, createdBy);
            Inv(after) && Grows(ws.clusters, after.clusters, ws.nextUid) && after.nextUid >= ws.nextUid && after.routes == ws.routes
    decreases |clusters|
  {
    if clusters != [] {
      var n := |clusters| - 1;
      var c, before := clusters[n], ImportClusters(ws, clusters[..n], source, createdBy);
      ImportClustersKeeps(ws, clusters[..n], source, createdBy);
      PutClusterKeeps(before, c, None, true, source, createdBy, false);
      GrowsTransitive(ws.clusters, before.clusters, ImportClusters(ws, clusters, source, createdBy).clusters, ws.nextUid, before.nextUid);
    }
  }

  lemma {:induction false} ImportRoutesKeeps(ws: WorkingSet, routes: seq<RouteConfig>, source: string, createdBy: Option<string>)
    requires Inv(ws)
    ensures var after := ImportRoutes(ws, routes, source, createdBy);
            Inv(after) && after.clusters == ws.clusters && after.nextUid >= ws.nextUid
    decreases |routes|
  {
    if routes != [] {
      var n := |routes| - 1;
      ImportRoutesKeeps(ws, routes[..n], source, createdBy);
      PutRouteKeeps(ImportRoutes(ws, routes[..n], source, createdBy), WithOrder(routes[n]), source, createdBy, false);
    }
  }

  lemma {:induction false} ImportKeepsVersion(ws: WorkingSet, clusters: seq<ClusterConfig>, routes: seq<RouteConfig>, source: string,
                                              createdBy: Option<string>)
    ensures ImportRoutes(ImportClusters(ws, clusters, source, createdBy), routes, source, createdBy).version == ws.version
    decreases |clusters| + |routes|
  {
    if routes != [] {
      ImportKeepsVersion(ws, clusters, routes[..|routes| - 1], source, createdBy);
    } else if clusters != [] {
      ImportKeepsVersion(ws, clusters[..|clusters| - 1], [], source, createdBy);
    }
  }

  lemma ImportBatchKeeps(ws: WorkingSet, clusters: seq<ClusterConfig>, routes: seq<RouteConfig>, source: string,
                         createdBy: Option<string>)
    requires Inv(ws)
    ensures var after := ImportBatch(ws, clusters, routes, source, createdBy);
            Inv(after) && Grows(ws.clusters, after.clusters, ws.nextUid)
  {
    var ws1 := ImportClusters(ws, clusters, source, createdBy);
    var ws2 := ImportRoutes(ws1, routes, source, createdBy);
    ImportClustersKeeps(ws, clusters, source, createdBy);
    ImportRoutesKeeps(ws1, routes, source, createdBy);
    NormalizeKeeps(ws2.routes, ws2.clusters, ws2.nextUid);
  }

  /** The last of several configurations with an id. */
  function LastCluster(clusters: seq<ClusterConfig>, id: Id): Option<ClusterConfig>
    decreases |clusters|
  {
    if clusters == [] then None
    else
      var n := |clusters| - 1;
      if clusters[n].id == id then Some(clusters[n]) else LastCluster(clusters[..n], id)
  }

  function LastRoute(routes: seq<RouteConfig>, id: Id): Option<RouteConfig>
    decreases |routes|
  {
    if routes == [] then None
    else
      var n := |routes| - 1;
      if routes[n].id == id then Some(routes[n]) else LastRoute(routes[..n], id)
  }

  /** An imported cluster is found under its id, in the known record or a new one; no other changes. */
  lemma ImportOneLookup(ws: WorkingSet, config: ClusterConfig, source: string, createdBy: Option<string>, id: Id)
    requires Inv(ws)
    ensures
      var known := FindCluster(ws.clusters, id);
      FindCluster(PutCluster(ws, config, None, true, source, createdBy, false).clusters, id) ==
      if id != config.id then known
      else if known.Some? then Some(known.value.(config := config))
      else Some(Cluster(config, ws.nextUid, None, source, createdBy))
  {
    var i := IndexOf(ws.clusters, ClusterKey, config.id);
    if i < |ws.clusters| {
      FindUpdate(ws.clusters, ClusterKey, i, ws.clusters[i].(config := config), id);
    } else {
      FindAppend(ws.clusters, ClusterKey, Cluster(config, ws.nextUid, None, source, createdBy), id);
    }
  }

  /** Of clusters imported under one id the last wins; a known record keeps all but its configuration. */
  lemma {:induction false} ImportedCluster(ws: WorkingSet, clusters: seq<ClusterConfig>, source: string,
                                           createdBy: Option<string>, id: Id)
    requires Inv(ws)
    ensures
      var c', known := FindCluster(ImportClusters(ws, clusters, source, createdBy).clusters, id), FindCluster(ws.clusters, id);
      match LastCluster(clusters, id)
      case None => c' == known
      case Some(config) =>
        && c'.Some? && c'.value.config == config
        && (known.Some? ==> c'.value == known.value.(config := config))
        && (known.None? ==> c'.value.source == source && c'.value.createdBy == createdBy && c'.value.health.None?)
    decreases |clusters|
  {
    if clusters != [] {
      var n := |clusters| - 1;
      var c, before := clusters[n], ImportClusters(ws, clusters[..n], source, createdBy);
      ImportedCluster(ws, clusters[..n], source, createdBy, id);
      ImportClustersKeeps(ws, clusters[..n], source, createdBy);
      ImportOneLookup(before, c, source, createdBy, id);
    }
  }

  lemma ImportOneRouteLookup(ws: WorkingSet, config: RouteConfig, source: string, createdBy: Option<string>, id: Id)
    requires Inv(ws)
    ensures
      var known, uid := FindRoute(ws.routes, id), Resolve(ws.clusters, config.clusterId);
      FindRoute(PutRoute(ws, config, source, createdBy, false).routes, id) ==
      if id != config.id then known
      else if known.Some? then Some(known.value.(config := config, clusterUid := uid))
      else Some(Route(config, ws.nextUid, uid, true, source, createdBy))
  {
    var i, uid := IndexOf(ws.routes, RouteKey, config.id), Resolve(ws.clusters, config.clusterId);
    if i < |ws.routes| {
      FindUpdate(ws.routes, RouteKey, i, ws.routes[i].(config := config, clusterUid := uid), id);
    } else {
      FindAppend(ws.routes, RouteKey, Route(config, ws.nextUid, uid, true, source, createdBy), id);
    }
  }

  /** Every imported route resolves its cluster in the working set the import leaves. */
  lemma {:induction false} ImportedRoute(ws: WorkingSet, routes: seq<RouteConfig>, source: string, createdBy: Option<string>, id: Id)
    requires Inv(ws)
    ensures
      var r', known := FindRoute(ImportRoutes(ws, routes, source, createdBy).routes, id), FindRoute(ws.routes, id);
      match LastRoute(routes, id)
      case None => r' == known
      case Some(config) =>
        && r'.Some? && r'.value.config == WithOrder(config) && r'.value.clusterUid == Resolve(ws.clusters, config.clusterId)
        && (known.Some? ==> r'.value == known.value.(config := r'.value.config, clusterUid := r'.value.clusterUid))
        && (known.None? ==> r'.value.enabled && r'.value.source == source && r'.value.createdBy == createdBy)
    decreases |routes|
  {
    if routes != [] {
      var n := |routes| - 1;
      var before, config := ImportRoutes(ws, routes[..n], source, createdBy), WithOrder(routes[n]);
      ImportedRoute(ws, routes[..n], source, createdBy, id);
      ImportRoutesKeeps(ws, routes[..n], source, createdBy);
      ImportOneRouteLookup(before, config, source, createdBy, id);
    }
  }

  // ----- deleting clusters -----

  /** Deleting the clusters one after another, with the flags the calls answer. */
  function RemoveEach(ws: WorkingSet, ids: seq<Id>): (WorkingSet, seq<bool>)
    decreases |ids|
  {
    if ids == [] then (ws, [])
    else
      var n := |ids| - 1;
      var (before, flags) := RemoveEach(ws, ids[..n]);
      var (after, result) := RemoveCluster(before, ids[n]);
      (after, flags + [result.Accepted?])
  }

  function CountTrue(flags: seq<bool>): nat {
    if flags == [] then 0 else CountTrue(flags[..|flags| - 1]) + if flags[|flags| - 1] then 1 else 0
  }

  /** Against the routes a working set has, the batch decides on one cluster as the single call does. */
  lemma OneDeletion(ws: WorkingSet, id: Id)
    ensures
      var (left, deleted) := DeleteCluster(ws.clusters, id, ReferencedIds(ws.routes));
      var (after, result) := RemoveCluster(ws, id);
      && result.Accepted? == deleted
      && after == ws.(clusters := left, version := ws.version + if deleted then 1 else 0)
  {
    assert !Blank(id) ==> (id in ReferencedIds(ws.routes) <==> exists r :: r in ws.routes && Names(r, id));
  }

  lemma CountTrueSnoc(flags: seq<bool>, f: bool)
    ensures CountTrue(flags + [f]) == CountTrue(flags) + if f then 1 else 0
  {
    assert (flags + [f])[..|flags|] == flags;
  }

  /** The batch leaves the working set and the flags of the calls in order, repeated ids included. */
  lemma {:induction false} BatchIsSequence(ws: WorkingSet, ids: seq<Id>)
    ensures
      var (left, flags) := DeleteClusters(ws.clusters, ids, ReferencedIds(ws.routes));
      RemoveEach(ws, ids) == (ws.(clusters := left, version := ws.version + CountTrue(flags)), flags)
    decreases |ids|
  {
    if ids != [] {
      var n := |ids| - 1;
      var (before, flags) := RemoveEach(ws, ids[..n]);
      BatchIsSequence(ws, ids[..n]);
      OneDeletion(before, ids[n]);
      CountTrueSnoc(flags, DeleteCluster(before.clusters, ids[n], ReferencedIds(ws.routes)).1);
    }
  }

  lemma {:induction false} DeleteClustersFlags(clusters: seq<Cluster>, ids: seq<Id>, referenced: set<Id>)
    ensures |DeleteClusters(clusters, ids, referenced).1| == |ids|
    decreases |ids|
  {
    if ids != [] {
      DeleteClustersFlags(clusters, ids[..|ids| - 1], referenced);
    }
  }

  /** Deleting in a batch is deleting one by one, but counts as one change or none. */
  lemma BatchDeleteClustersIsSequence(ws: WorkingSet, ids: seq<Id>)
    ensures
      var (batch, flags) := BatchDeleteClusters(ws, ids);
      var (each, flags') := RemoveEach(ws, ids);
      && flags == flags' && |flags| == |ids|
      && batch.(version := 0) == each.(version := 0)
      && batch.version == ws.version + (if true in flags then 1 else 0)
      && each.version == ws.version + CountTrue(flags)
  {
    BatchIsSequence(ws, ids);
    var (left, flags) := DeleteClusters(ws.clusters, ids, ReferencedIds(ws.routes));
    DeleteClustersFlags(ws.clusters, ids, ReferencedIds(ws.routes));
    if true !in flags {
      NothingDeleted(ws.clusters, ids, ReferencedIds(ws.routes));
    }
  }

  lemma {:induction false} NothingDeleted(clusters: seq<Cluster>, ids: seq<Id>, referenced: set<Id>)
    requires true !in DeleteClusters(clusters, ids, referenced).1
    ensures DeleteClusters(clusters, ids, referenced).0 == clusters
    decreases |ids|
  {
    if ids != [] {
      var flags := DeleteClusters(clusters, ids[..|ids| - 1], referenced).1;
      var all := DeleteClusters(clusters, ids, referenced).1;
      assert all == flags + [all[|flags|]];
      assert forall f :: f in flags ==> f in all;
      assert all[|flags|] in all;
      NothingDeleted(clusters, ids[..|ids| - 1], referenced);
    }
  }

  lemma {:induction false} DeleteClustersKeeps(clusters: seq<Cluster>, ids: seq<Id>, referenced: set<Id>, n: Uid)
    requires ClustersOk(clusters, n)
    ensures var left := DeleteClusters(clusters, ids, referenced).0;
            && ClustersOk(left, n)
            && forall id :: FindCluster(left, id) ==
                            if id in ids && !Blank(id) && id !in referenced then None else FindCluster(clusters, id)
    decreases |ids|
  {
    if ids != [] {
      var m := |ids| - 1;
      var left := DeleteClusters(clusters, ids[..m], referenced).0;
      DeleteClustersKeeps(clusters, ids[..m], referenced, n);
      assert forall id :: id in ids <==> id in ids[..m] || id == ids[m];
      var i := IndexOf(left, ClusterKey, ids[m]);
      if i < |left| {
        ClusterRemoved(left, i, n);
      }
    }
  }

  lemma BatchDeleteClustersKeeps(ws: WorkingSet, ids: seq<Id>)
    requires Inv(ws)
    ensures var after := BatchDeleteClusters(ws, ids).0; Inv(after) && Shrinks(ws.clusters, after.clusters)
  {
    var referenced := ReferencedIds(ws.routes);
    var left := DeleteClusters(ws.clusters, ids, referenced).0;
    DeleteClustersKeeps(ws.clusters, ids, referenced, ws.nextUid);
    forall r | r in ws.routes && r.clusterUid.Some?
      ensures Resolve(left, r.config.clusterId) == Resolve(ws.clusters, r.config.clusterId)
    {
      assert r.config.clusterId.value in referenced;
    }
    RoutesStayOk(ws.routes, ws.clusters, left, ws.nextUid, ws.nextUid);
  }

  // ----- enabling routes -----

  function Flagged(r: Route, ids: seq<Id>, enabled: bool): Route {
    if r.config.id in ids && !Blank(r.config.id) then r.(enabled := enabled) else r
  }

  lemma SameKeysSameIndex(routes: seq<Route>, routes': seq<Route>, id: Id)
    requires |routes'| == |routes|
    requires forall k :: 0 <= k < |routes| ==> RouteKey(routes'[k]) == RouteKey(routes[k])
    ensures IndexOf(routes', RouteKey, id) == IndexOf(routes, RouteKey, id)
    ensures Unique(routes, RouteKey) ==> Unique(routes', RouteKey)
  {
  }

  lemma FlaggedSnoc(r: Route, ids: seq<Id>, id: Id, enabled: bool)
    ensures Flagged(r, ids + [id], enabled) ==
            if r.config.id == id && !Blank(id) then Flagged(r, ids, enabled).(enabled := enabled) else Flagged(r, ids, enabled)
  {
  }

  lemma EnableOne(routes: seq<Route>, left: seq<Route>, ids: seq<Id>, id: Id, enabled: bool, k: nat)
    requires Unique(routes, RouteKey) && k < |routes| == |left|
    requires forall k :: 0 <= k < |routes| ==> left[k] == Flagged(routes[k], ids, enabled)
    ensures
      var i := IndexOf(left, RouteKey, id);
      var after := if Blank(id) || i == |left| then left else left[i := left[i].(enabled := enabled)];
      after[k] == Flagged(routes[k], ids + [id], enabled)
  {
    FlaggedSnoc(routes[k], ids, id, enabled);
    SameKeysSameIndex(routes, left, id);
    FindIs(routes, RouteKey, k);
  }

  /** Exactly the named routes get the flag. */
  lemma {:induction false} EnableRoutesIs(routes: seq<Route>, ids: seq<Id>, enabled: bool)
    requires Unique(routes, RouteKey)
    ensures
      var left := EnableRoutes(routes, ids, enabled).0;
      |left| == |routes| && forall k :: 0 <= k < |routes| ==> left[k] == Flagged(routes[k], ids, enabled)
    decreases |ids|
  {
    if ids != [] {
      var init, id := ids[..|ids| - 1], ids[|ids| - 1];
      EnableRoutesIs(routes, init, enabled);
      var left := EnableRoutes(routes, init, enabled).0;
      forall k | 0 <= k < |routes|
        ensures EnableRoutes(routes, ids, enabled).0[k] == Flagged(routes[k], ids, enabled)
      {
        EnableOne(routes, left, init, id, enabled, k);
        assert ids == init + [id];
      }
    }
  }

  lemma {:induction false} EnableFlagCount(routes: seq<Route>, ids: seq<Id>, enabled: bool)
    ensures |EnableRoutes(routes, ids, enabled).1| == |ids|
    decreases |ids|
  {
    if ids != [] {
      EnableFlagCount(routes, ids[..|ids| - 1], enabled);
    }
  }

  /** An id is answered true exactly when it names a route, enabled already or not. */
  lemma {:induction false} EnableFlagsAre(routes: seq<Route>, ids: seq<Id>, enabled: bool, k: nat)
    requires Unique(routes, RouteKey) && k < |ids|
    ensures
      var flags := EnableRoutes(routes, ids, enabled).1;
      |flags| == |ids| && (flags[k] <==> !Blank(ids[k]) && FindRoute(routes, ids[k]).Some?)
    decreases |ids|
  {
    var init := ids[..|ids| - 1];
    EnableFlagCount(routes, init, enabled);
    EnableFlagCount(routes, ids, enabled);
    if k < |ids| - 1 {
      EnableFlagsAre(routes, init, enabled, k);
    } else {
      EnableRoutesIs(routes, init, enabled);
      SameKeysSameIndex(routes, EnableRoutes(routes, init, enabled).0, ids[k]);
    }
  }

  lemma {:induction false} NothingEnabled(routes: seq<Route>, ids: seq<Id>, enabled: bool)
    requires true !in EnableRoutes(routes, ids, enabled).1
    ensures EnableRoutes(routes, ids, enabled).0 == routes
    decreases |ids|
  {
    if ids != [] {
      var flags := EnableRoutes(routes, ids[..|ids| - 1], enabled).1;
      var all := EnableRoutes(routes, ids, enabled).1;
      assert all == flags + [all[|flags|]];
      assert forall f :: f in flags ==> f in all;
      assert all[|flags|] in all;
      NothingEnabled(routes, ids[..|ids| - 1], enabled);
    }
  }

  lemma BatchSetRoutesEnabledKeeps(ws: WorkingSet, ids: seq<Id>, enabled: bool)
    requires Inv(ws)
    ensures Inv(BatchSetRoutesEnabled(ws, ids, enabled).0)
  {
    EnableRoutesIs(ws.routes, ids, enabled);
    forall k | 0 <= k < |ws.routes|
      ensures Coherent(Flagged(ws.routes[k], ids, enabled), ws.clusters)
    {
      assert ws.routes[k] in ws.routes;
    }
    SameIdentities(ws.routes, EnableRoutes(ws.routes, ids, enabled).0, ws.clusters, ws.clusters, ws.nextUid);
  }

  // ----- replacing everything -----

  ghost predicate DistinctClusters(clusters: seq<ClusterConfig>) {
    forall i, j :: 0 <= i < j < |clusters| ==> clusters[i].id != clusters[j].id
  }

  ghost predicate DistinctRoutes(routes: seq<RouteConfig>) {
    forall i, j :: 0 <= i < j < |routes| ==> routes[i].id != routes[j].id
  }

  /** A known id keeps its record but for the configuration; another gets a uid of its own. */
  ghost predicate ReplacedCluster(known: seq<Cluster>, config: ClusterConfig, source: string, createdBy: Option<string>,
                                  n: Uid, m: Uid, c: Cluster)
  {
    && c.config == config
    && match FindCluster(known, config.id)
       case Some(k) => c == k.(config := config)
       case None => n <= c.uid < m && c.health.None? && c.source == source && c.createdBy == createdBy
  }

  ghost predicate ReplacedRoute(known: seq<Route>, clusters: seq<Cluster>, config: RouteConfig, source: string,
                                createdBy: Option<string>, n: Uid, m: Uid, r: Route)
  {
    && r.config == WithOrder(config) && r.clusterUid == Resolve(clusters, config.clusterId)
    && match FindRoute(known, config.id)
       case Some(k) => r.uid == k.uid && r.enabled == k.enabled && r.source == k.source && r.createdBy == k.createdBy
       case None => n <= r.uid < m && r.enabled && r.source == source && r.createdBy == createdBy
  }

  lemma {:induction false} ReplaceClustersAre(known: seq<Cluster>, clusters: seq<ClusterConfig>, source: string,
                                              createdBy: Option<string>, n: Uid)
    ensures
      var (after, m) := ReplaceClusters(known, clusters, source, createdBy, n);
      forall k :: 0 <= k < |clusters| ==> ReplacedCluster(known, clusters[k], source, createdBy, n, m, after[k])
    decreases |clusters|
  {
    if clusters != [] {
      var i, init := |clusters| - 1, clusters[..|clusters| - 1];
      ReplaceClustersAre(known, init, source, createdBy, n);
      var (done, m) := ReplaceClusters(known, init, source, createdBy, n);
      var (after, m') := ReplaceClusters(known, clusters, source, createdBy, n);
      assert ReplacedCluster(known, clusters[i], source, createdBy, n, m', after[i]);
      forall k | 0 <= k < i
        ensures ReplacedCluster(known, clusters[k], source, createdBy, n, m', after[k])
      {
        assert ReplacedCluster(known, init[k], source, createdBy, n, m, done[k]);
      }
    }
  }

  /** The uids handed out on the way are all different. */
  lemma {:induction false} NewClusterUidsDiffer(known: seq<Cluster>, clusters: seq<ClusterConfig>, source: string,
                                              createdBy: Option<string>, n: Uid, j: nat, k: nat)
    requires j < k < |clusters| && FindCluster(known, clusters[j].id).None? && FindCluster(known, clusters[k].id).None?
    ensures var after := ReplaceClusters(known, clusters, source, createdBy, n).0; after[j].uid != after[k].uid
    decreases |clusters|
  {
    var i, init := |clusters| - 1, clusters[..|clusters| - 1];
    if k < i {
      NewClusterUidsDiffer(known, init, source, createdBy, n, j, k);
    } else {
      ReplaceClustersAre(known, init, source, createdBy, n);
      var (done, m) := ReplaceClusters(known, init, source, createdBy, n);
      assert ReplacedCluster(known, init[j], source, createdBy, n, m, done[j]);
    }
  }

  lemma {:induction false} ReplaceRoutesAre(known: seq<Route>, clusters: seq<Cluster>, routes: seq<RouteConfig>, source: string,
                                              createdBy: Option<string>, n: Uid)
    ensures
      var (after, m) := ReplaceRoutes(known, clusters, routes, source, createdBy, n);
      forall k :: 0 <= k < |routes| ==> ReplacedRoute(known, clusters, routes[k], source, createdBy, n, m, after[k])
    decreases |routes|
  {
    if routes != [] {
      var i, init := |routes| - 1, routes[..|routes| - 1];
      ReplaceRoutesAre(known, clusters, init, source, createdBy, n);
      var (done, m) := ReplaceRoutes(known, clusters, init, source, createdBy, n);
      var (after, m') := ReplaceRoutes(known, clusters, routes, source, createdBy, n);
      assert ReplacedRoute(known, clusters, routes[i], source, createdBy, n, m', after[i]);
      forall k | 0 <= k < i
        ensures ReplacedRoute(known, clusters, routes[k], source, createdBy, n, m', after[k])
      {
        assert ReplacedRoute(known, clusters, init[k], source, createdBy, n, m, done[k]);
      }
    }
  }

  /** The uids handed out on the way are all different. */
  lemma {:induction false} NewRouteUidsDiffer(known: seq<Route>, clusters: seq<Cluster>, routes: seq<RouteConfig>, source: string,
                                              createdBy: Option<string>, n: Uid, j: nat, k: nat)
    requires j < k < |routes| && FindRoute(known, routes[j].id).None? && FindRoute(known, routes[k].id).None?
    ensures var after := ReplaceRoutes(known, clusters, routes, source, createdBy, n).0; after[j].uid != after[k].uid
    decreases |routes|
  {
    var i, init := |routes| - 1, routes[..|routes| - 1];
    if k < i {
      NewRouteUidsDiffer(known, clusters, init, source, createdBy, n, j, k);
    } else {
      ReplaceRoutesAre(known, clusters, init, source, createdBy, n);
      var (done, m) := ReplaceRoutes(known, clusters, init, source, createdBy, n);
      assert ReplacedRoute(known, clusters, init[j], source, createdBy, n, m, done[j]);
    }
  }

  /** Records with different ids are different records. */
  lemma FoundDiffer<T, K>(s: seq<T>, key: T -> K, uidOf: T -> Uid, a: T, b: T)
    requires Unique(s, uidOf) && a in s && b in s && key(a) != key(b)
    ensures uidOf(a) != uidOf(b)
  {
  }

  lemma ReplacedUidsDiffer(known: seq<Cluster>, clusters: seq<ClusterConfig>, source: string, createdBy: Option<string>, n: Uid)
    requires ClustersOk(known, n) && DistinctClusters(clusters)
    ensures Unique(ReplaceClusters(known, clusters, source, createdBy, n).0, ClusterUidOf)
  {
    var (after, m) := ReplaceClusters(known, clusters, source, createdBy, n);
    ReplaceClustersAre(known, clusters, source, createdBy, n);
    forall j, k | 0 <= j < k < |after|
      ensures ClusterUidOf(after[j]) != ClusterUidOf(after[k])
    {
      assert ReplacedCluster(known, clusters[j], source, createdBy, n, m, after[j]);
      assert ReplacedCluster(known, clusters[k], source, createdBy, n, m, after[k]);
      var a, b := FindCluster(known, clusters[j].id), FindCluster(known, clusters[k].id);
      if a.Some? && b.Some? {
        FoundDiffer(known, ClusterKey, ClusterUidOf, a.value, b.value);
      } else if a.None? && b.None? {
        NewClusterUidsDiffer(known, clusters, source, createdBy, n, j, k);
      }
    }
  }

  lemma ReplacedClustersOk(known: seq<Cluster>, clusters: seq<ClusterConfig>, source: string, createdBy: Option<string>, n: Uid)
    requires ClustersOk(known, n)
    ensures var (after, m) := ReplaceClusters(known, clusters, source, createdBy, n);
            ClustersOk(after, m) <==> DistinctClusters(clusters)
  {
    var (after, m) := ReplaceClusters(known, clusters, source, createdBy, n);
    ReplaceClustersAre(known, clusters, source, createdBy, n);
    assert forall k :: 0 <= k < |after| ==> ClusterKey(after[k]) == clusters[k].id;
    if DistinctClusters(clusters) {
      ReplacedUidsDiffer(known, clusters, source, createdBy, n);
      forall c | c in after
        ensures c.uid < m
      {
        var k :| 0 <= k < |after| && after[k] == c;
        assert ReplacedCluster(known, clusters[k], source, createdBy, n, m, after[k]);
      }
    }
  }

  /** A cluster whose id was known before keeps its uid; one that was not has a new one. */
  lemma ReplacedLookup(known: seq<Cluster>, clusters: seq<ClusterConfig>, source: string, createdBy: Option<string>, n: Uid, id: Id)
    ensures var c := FindCluster(ReplaceClusters(known, clusters, source, createdBy, n).0, id);
            c.Some? ==>
              if FindCluster(known, id).Some? then c.value.uid == FindCluster(known, id).value.uid else c.value.uid >= n
  {
    var (after, m) := ReplaceClusters(known, clusters, source, createdBy, n);
    ReplaceClustersAre(known, clusters, source, createdBy, n);
    var k := IndexOf(after, ClusterKey, id);
    if k < |after| {
      assert ReplacedCluster(known, clusters[k], source, createdBy, n, m, after[k]);
    }
  }

  lemma ReplacedRouteUidsDiffer(known: seq<Route>, clusters: seq<Cluster>, routes: seq<RouteConfig>, source: string,
                                createdBy: Option<string>, n: Uid)
    requires Unique(known, RouteUidOf) && (forall r :: r in known ==> r.uid < n) && DistinctRoutes(routes)
    ensures Unique(ReplaceRoutes(known, clusters, routes, source, createdBy, n).0, RouteUidOf)
  {
    var (after, m) := ReplaceRoutes(known, clusters, routes, source, createdBy, n);
    ReplaceRoutesAre(known, clusters, routes, source, createdBy, n);
    forall j, k | 0 <= j < k < |after|
      ensures RouteUidOf(after[j]) != RouteUidOf(after[k])
    {
      assert ReplacedRoute(known, clusters, routes[j], source, createdBy, n, m, after[j]);
      assert ReplacedRoute(known, clusters, routes[k], source, createdBy, n, m, after[k]);
      var a, b := FindRoute(known, routes[j].id), FindRoute(known, routes[k].id);
      if a.Some? && b.Some? {
        FoundDiffer(known, RouteKey, RouteUidOf, a.value, b.value);
      } else if a.None? && b.None? {
        NewRouteUidsDiffer(known, clusters, routes, source, createdBy, n, j, k);
      }
    }
  }

  lemma ReplacedRoutesOk(known: seq<Route>, clusters: seq<Cluster>, routes: seq<RouteConfig>, source: string,
                         createdBy: Option<string>, n: Uid)
    requires Unique(known, RouteUidOf) && forall r :: r in known ==> r.uid < n
    ensures var (after, m) := ReplaceRoutes(known, clusters, routes, source, createdBy, n);
            RoutesOk(after, clusters, m) <==> DistinctRoutes(routes)
  {
    var (after, m) := ReplaceRoutes(known, clusters, routes, source, createdBy, n);
    ReplaceRoutesAre(known, clusters, routes, source, createdBy, n);
    assert forall k :: 0 <= k < |after| ==> RouteKey(after[k]) == routes[k].id;
    if DistinctRoutes(routes) {
      ReplacedRouteUidsDiffer(known, clusters, routes, source, createdBy, n);
      forall r | r in after
        ensures r.uid < m && Coherent(r, clusters)
      {
        var k :| 0 <= k < |after| && after[k] == r;
        assert ReplacedRoute(known, clusters, routes[k], source, createdBy, n, m, after[k]);
      }
    }
  }

  lemma ReplaceAllIff(ws: WorkingSet, routes: seq<RouteConfig>, clusters: seq<ClusterConfig>, source: string, createdBy: Option<string>)
    requires Inv(ws)
    ensures Inv(ReplaceAll(ws, routes, clusters, source, createdBy)) <==> DistinctClusters(clusters) && DistinctRoutes(routes)
  {
    var (cs, uid) := ReplaceClusters(ws.clusters, clusters, source, createdBy, ws.nextUid);
    var (rs, uid') := ReplaceRoutes(ws.routes, cs, routes, source, createdBy, uid);
    ReplacedClustersOk(ws.clusters, clusters, source, createdBy, ws.nextUid);
    ReplacedRoutesOk(ws.routes, cs, routes, source, createdBy, uid);
    ReplaceClustersAre(ws.clusters, clusters, source, createdBy, ws.nextUid);
    if !DistinctClusters(clusters) {
      assert forall k :: 0 <= k < |cs| ==> ClusterKey(cs[k]) == clusters[k].id;
      assert !Unique(cs, ClusterKey);
    }
  }

  /** A rollback installs exactly the given configurations, and every route resolves in them. */
  lemma ReplaceAllRestores(ws: WorkingSet, routes: seq<RouteConfig>, clusters: seq<ClusterConfig>, source: string,
                           createdBy: Option<string>)
    ensures
      var after, n := ReplaceAll(ws, routes, clusters, source, createdBy), ws.nextUid;
      && |after.clusters| == |clusters| && |after.routes| == |routes|
      && (forall k :: 0 <= k < |clusters| ==>
            ReplacedCluster(ws.clusters, clusters[k], source, createdBy, n, after.nextUid, after.clusters[k]))
      && (forall k :: 0 <= k < |routes| ==>
            ReplacedRoute(ws.routes, after.clusters, routes[k], source, createdBy, n, after.nextUid, after.routes[k]))
  {
    var (cs, m) := ReplaceClusters(ws.clusters, clusters, source, createdBy, ws.nextUid);
    var (rs, m') := ReplaceRoutes(ws.routes, cs, routes, source, createdBy, m);
    ReplaceClustersAre(ws.clusters, clusters, source, createdBy, ws.nextUid);
    ReplaceRoutesAre(ws.routes, cs, routes, source, createdBy, m);
    forall k | 0 <= k < |routes|
      ensures ReplacedRoute(ws.routes, cs, routes[k], source, createdBy, ws.nextUid, m', rs[k])
    {
      assert ReplacedRoute(ws.routes, cs, routes[k], source, createdBy, m, m', rs[k]);
    }
    forall k | 0 <= k < |clusters|
      ensures ReplacedCluster(ws.clusters, clusters[k], source, createdBy, ws.nextUid, m', cs[k])
    {
      assert ReplacedCluster(ws.clusters, clusters[k], source, createdBy, ws.nextUid, m, cs[k]);
    }
  }
}
