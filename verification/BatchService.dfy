/** The operations on many records: one critical section, one version, one pass over the lists. */
module BatchService {
  import opened Wrappers
  import opened KeyedList
  import opened WorkingSet
  import opened ConfigRecords
  import opened WorkingSetBatches

  /** A dictionary from ids to the cluster records of a list. */
  ghost predicate ClusterMapOk(m: map<Id, DynamicClusterConfig>, clusters: seq<DynamicClusterConfig>)
    reads clusters
  {
    && (forall k :: 0 <= k < |clusters| ==> clusters[k].config.id in m && m[clusters[k].config.id] == clusters[k])
    && (forall id :: id in m ==> m[id] in clusters && m[id].config.id == id)
  }

  ghost predicate RouteMapOk(m: map<Id, DynamicRouteConfig>, routes: seq<DynamicRouteConfig>)
    reads routes
  {
    && (forall k :: 0 <= k < |routes| ==> routes[k].config.id in m && m[routes[k].config.id] == routes[k])
    && (forall id :: id in m ==> m[id] in routes && m[id].config.id == id)
  }

  lemma ClusterMapFinds(m: map<Id, DynamicClusterConfig>, clusters: seq<DynamicClusterConfig>, id: Id)
    requires ClusterMapOk(m, clusters) && DistinctRecords(clusters)
    ensures
      var i := IndexOf(ClusterValues(clusters), ClusterKey, id);
      if id in m then i < |clusters| && clusters[i] == m[id] else i == |clusters|
  {
    if id in m {
      var k :| 0 <= k < |clusters| && clusters[k] == m[id];
      assert ClusterKey(ClusterValues(clusters)[k]) == id;
    }
  }

  lemma RouteMapFinds(m: map<Id, DynamicRouteConfig>, routes: seq<DynamicRouteConfig>, id: Id)
    requires RouteMapOk(m, routes) && DistinctRecords(routes)
    ensures
      var i := IndexOf(RouteValues(routes), RouteKey, id);
      if id in m then i < |routes| && routes[i] == m[id] else i == |routes|
  {
    if id in m {
      var k :| 0 <= k < |routes| && routes[k] == m[id];
      assert RouteKey(RouteValues(routes)[k]) == id;
    }
  }

  lemma ClusterMapExtended(m: map<Id, DynamicClusterConfig>, clusters: seq<DynamicClusterConfig>, dc: DynamicClusterConfig)
    requires ClusterMapOk(m, clusters) && dc.config.id !in m
    ensures ClusterMapOk(m[dc.config.id := dc], clusters + [dc])
  {
  }

  lemma RouteMapExtended(m: map<Id, DynamicRouteConfig>, routes: seq<DynamicRouteConfig>, dr: DynamicRouteConfig)
    requires RouteMapOk(m, routes) && dr.config.id !in m
    ensures RouteMapOk(m[dr.config.id := dr], routes + [dr])
  {
  }

  /** `ToDictionary`, which throws when an id repeats. */
  method ClusterMap(clusters: seq<DynamicClusterConfig>) returns (m: map<Id, DynamicClusterConfig>)
    requires Unique(ClusterValues(clusters), ClusterKey)
    ensures ClusterMapOk(m, clusters)
  {
    m := map[];
    var i := 0;
    while i < |clusters|
      invariant i <= |clusters|
      invariant forall k :: 0 <= k < i ==> clusters[k].config.id in m && m[clusters[k].config.id] == clusters[k]
      invariant forall id :: id in m ==> m[id] in clusters && m[id].config.id == id
    {
      assert forall k :: 0 <= k < i ==> ClusterKey(ClusterValues(clusters)[k]) != ClusterKey(ClusterValues(clusters)[i]);
      m := m[clusters[i].config.id := clusters[i]];
      i := i + 1;
    }
  }

  method RouteMap(routes: seq<DynamicRouteConfig>) returns (m: map<Id, DynamicRouteConfig>)
    requires Unique(RouteValues(routes), RouteKey)
    ensures RouteMapOk(m, routes)
  {
    m := map[];
    var i := 0;
    while i < |routes|
      invariant i <= |routes|
      invariant forall k :: 0 <= k < i ==> routes[k].config.id in m && m[routes[k].config.id] == routes[k]
      invariant forall id :: id in m ==> m[id] in routes && m[id].config.id == id
    {
      assert forall k :: 0 <= k < i ==> RouteKey(RouteValues(routes)[k]) != RouteKey(RouteValues(routes)[i]);
      m := m[routes[i].config.id := routes[i]];
      i := i + 1;
    }
  }

  lemma ReplaceClustersStep(known: seq<Cluster>, clusters: seq<ClusterConfig>, n: nat, source: string, createdBy: Option<string>, uid: Uid)
    requires n < |clusters|
    ensures ReplaceClusters(known, clusters[..n + 1], source, createdBy, uid) ==
            var (done, u) := ReplaceClusters(known, clusters[..n], source, createdBy, uid);
            ReplaceCluster(known, done, u, clusters[n], source, createdBy)
  {
    assert clusters[..n + 1][..n] == clusters[..n];
  }

  lemma ReplaceRoutesStep(known: seq<Route>, clusters: seq<Cluster>, routes: seq<RouteConfig>, n: nat, source: string,
                          createdBy: Option<string>, uid: Uid)
    requires n < |routes|
    ensures ReplaceRoutes(known, clusters, routes[..n + 1], source, createdBy, uid) ==
            var (done, u) := ReplaceRoutes(known, clusters, routes[..n], source, createdBy, uid);
            ReplaceRoute(known, done, u, WithOrder(routes[n]), Resolve(clusters, routes[n].clusterId), source, createdBy)
  {
    assert routes[..n + 1][..n] == routes[..n];
  }

  /** The records the rest of a replacement will reuse: as they were, and not on the new list yet. */
  ghost predicate ClustersPending(known: map<Id, DynamicClusterConfig>, list: seq<DynamicClusterConfig>, values: seq<Cluster>,
                               configs: seq<ClusterConfig>, n: nat)
    reads known.Values
  {
    && (forall a, b :: a in known && b in known && a != b ==> known[a] != known[b])
    && (forall k :: n <= k < |configs| ==>
          if configs[k].id in known then
            known[configs[k].id] !in list && Some(known[configs[k].id].Value()) == Find(values, ClusterKey, configs[k].id)
          else Find(values, ClusterKey, configs[k].id).None?)
  }

  /** The records the rest of a replacement will reuse: as they were, and not on the new list yet. */
  ghost predicate RoutesPending(known: map<Id, DynamicRouteConfig>, list: seq<DynamicRouteConfig>, values: seq<Route>,
                               configs: seq<RouteConfig>, n: nat)
    reads known.Values
  {
    && (forall a, b :: a in known && b in known && a != b ==> known[a] != known[b])
    && (forall k :: n <= k < |configs| ==>
          if configs[k].id in known then
            known[configs[k].id] !in list && Some(known[configs[k].id].Value()) == Find(values, RouteKey, configs[k].id)
          else Find(values, RouteKey, configs[k].id).None?)
  }

  lemma ClustersPendingAtFirst(known: map<Id, DynamicClusterConfig>, clusters: seq<DynamicClusterConfig>, configs: seq<ClusterConfig>)
    requires ClusterMapOk(known, clusters) && DistinctRecords(clusters)
    ensures ClustersPending(known, [], ClusterValues(clusters), configs, 0)
    ensures forall v :: v in known.Values ==> v in clusters
  {
    forall k | 0 <= k < |configs|
      ensures if configs[k].id in known then Some(known[configs[k].id].Value()) == Find(ClusterValues(clusters), ClusterKey, configs[k].id)
              else Find(ClusterValues(clusters), ClusterKey, configs[k].id).None?
    {
      ClusterMapFinds(known, clusters, configs[k].id);
    }
  }

  lemma RoutesPendingAtFirst(known: map<Id, DynamicRouteConfig>, routes: seq<DynamicRouteConfig>, configs: seq<RouteConfig>)
    requires RouteMapOk(known, routes) && DistinctRecords(routes)
    ensures RoutesPending(known, [], RouteValues(routes), configs, 0)
    ensures forall v :: v in known.Values ==> v in routes
  {
    forall k | 0 <= k < |configs|
      ensures if configs[k].id in known then Some(known[configs[k].id].Value()) == Find(RouteValues(routes), RouteKey, configs[k].id)
              else Find(RouteValues(routes), RouteKey, configs[k].id).None?
    {
      RouteMapFinds(known, routes, configs[k].id);
    }
  }

  lemma ImportClustersStep(ws: WorkingSet, clusters: seq<ClusterConfig>, n: nat, source: string, createdBy: Option<string>)
    requires n < |clusters|
    ensures ImportClusters(ws, clusters[..n + 1], source, createdBy) ==
            PutCluster(ImportClusters(ws, clusters[..n], source, createdBy), clusters[n], None, true, source, createdBy, false)
  {
    assert clusters[..n + 1][..n] == clusters[..n];
  }

  lemma ImportRoutesStep(ws: WorkingSet, routes: seq<RouteConfig>, n: nat, source: string, createdBy: Option<string>)
    requires n < |routes|
    ensures ImportRoutes(ws, routes[..n + 1], source, createdBy) ==
            PutRoute(ImportRoutes(ws, routes[..n], source, createdBy), WithOrder(routes[n]), source, createdBy, false)
  {
    assert routes[..n + 1][..n] == routes[..n];
  }

  class DynamicYarpConfigService {
    const state: DynamicConfigState

    constructor (state: DynamicConfigState)
      ensures this.state == state
    {
      this.state := state;
    }

    // ----- deleting and enabling -----

    method DeleteOneCluster(id: Id, referenced: set<Id>) returns (deleted: bool)
      requires state.Valid()
      modifies state`clusters
      ensures state.Valid() && forall c :: c in state.clusters ==> c in old(state.clusters)
      ensures (state.View().clusters, deleted) == DeleteCluster(old(state.View()).clusters, id, referenced)
      ensures state.View() == old(state.View()).(clusters := state.View().clusters)
    {
      if Blank(id) || id in referenced {
        return false;
      }
      var i := state.FindCluster(id);
      if i == |state.clusters| {
        return false;
      }
      state.RemoveClusterAt(i);
      deleted := true;
    }

    method DeleteClusterLoop(ids: seq<Id>, referenced: set<Id>) returns (items: seq<bool>)
      requires state.Valid()
      modifies state`clusters
      ensures state.Valid()
      ensures (state.View().clusters, items) == DeleteClusters(old(state.View()).clusters, ids, referenced)
      ensures state.View() == old(state.View()).(clusters := state.View().clusters)
    {
      items := [];
      var n := 0;
      while n < |ids|
        invariant n <= |ids| && state.Valid()
        invariant (state.View().clusters, items) == DeleteClusters(old(state.View()).clusters, ids[..n], referenced)
        invariant state.View() == old(state.View()).(clusters := state.View().clusters)
      {
        assert ids[..n + 1][..n] == ids[..n];
        var deleted := DeleteOneCluster(ids[n], referenced);
        items := items + [deleted];
        n := n + 1;
      }
      assert ids[..n] == ids;
    }

    method BatchDeleteClustersAsync(ids: seq<Id>) returns (items: seq<bool>)
      requires state.Valid()
      modifies state`clusters, state`version
      ensures state.Valid()
      ensures (state.View(), items) == BatchDeleteClusters(old(state.View()), ids)
    {
      var referenced := state.ReferencedClusterIds();
      items := DeleteClusterLoop(ids, referenced);
      if true in items {
        state.IncrementVersion();
      } else {
        NothingDeleted(old(state.View()).clusters, ids, referenced);
      }
    }

    method DeleteOneRoute(id: Id, items: seq<bool>, removedClusterIds: seq<Id>, survivors: set<Id>)
      returns (items': seq<bool>, removedClusterIds': seq<Id>, survivors': set<Id>)
      requires state.Valid()
      modifies state`routes
      ensures state.Valid()
      ensures Deletion(state.View().routes, items', removedClusterIds', survivors') ==
              DeleteRoute(Deletion(old(state.View()).routes, items, removedClusterIds, survivors), id)
      ensures state.View() == old(state.View()).(routes := state.View().routes)
    {
      items', removedClusterIds', survivors' := items + [false], removedClusterIds, survivors;
      if Blank(id) {
        return;
      }
      var i := state.FindRoute(id);
      if i == |state.routes| {
        return;
      }
      var clusterId := state.routes[i].config.clusterId;
      state.RemoveRouteAt(i);
      items' := items + [true];
      if clusterId.Some? && !Blank(clusterId.value) {
        if clusterId.value !in removedClusterIds {
          removedClusterIds' := removedClusterIds + [clusterId.value];
        }
        var named := state.ReferencedClusterIds();
        survivors' := survivors + named;
      }
    }

    method DeleteRouteLoop(ids: seq<Id>) returns (items: seq<bool>, removedClusterIds: seq<Id>, survivors: set<Id>)
      requires state.Valid()
      modifies state`routes
      ensures state.Valid()
      ensures Deletion(state.View().routes, items, removedClusterIds, survivors) == DeleteRoutes(old(state.View()).routes, ids)
      ensures state.View() == old(state.View()).(routes := state.View().routes)
    {
      items, removedClusterIds, survivors := [], [], {};
      var n := 0;
      while n < |ids|
        invariant n <= |ids| && state.Valid()
        invariant Deletion(state.View().routes, items, removedClusterIds, survivors) ==
                  DeleteRoutes(old(state.View()).routes, ids[..n])
        invariant state.View() == old(state.View()).(routes := state.View().routes)
      {
        assert ids[..n + 1][..n] == ids[..n];
        items, removedClusterIds, survivors := DeleteOneRoute(ids[n], items, removedClusterIds, survivors);
        n := n + 1;
      }
      assert ids[..n] == ids;
    }

    method RemoveOrphanRecord(orphan: Id, survivors: set<Id>)
      requires state.Valid()
      modifies state`clusters
      ensures state.Valid()
      ensures state.View() == old(state.View()).(clusters := RemoveOrphan(old(state.View()).clusters, orphan, survivors))
    {
      if orphan !in survivors {
        var i := state.FindCluster(orphan);
        if i < |state.clusters| {
          state.RemoveClusterAt(i);
        }
      }
    }

    method RemoveOrphanRecords(orphans: seq<Id>, survivors: set<Id>)
      requires state.Valid()
      modifies state`clusters
      ensures state.Valid()
      ensures state.View() == old(state.View()).(clusters := RemoveOrphans(old(state.View()).clusters, orphans, survivors))
    {
      var n := 0;
      while n < |orphans|
        invariant n <= |orphans| && state.Valid()
        invariant state.View() == old(state.View()).(clusters := RemoveOrphans(old(state.View()).clusters, orphans[..n], survivors))
      {
        assert orphans[..n + 1][..n] == orphans[..n];
        RemoveOrphanRecord(orphans[n], survivors);
        n := n + 1;
      }
      assert orphans[..n] == orphans;
    }

    method BatchDeleteRoutesAsync(ids: seq<Id>, removeOrphanedClusters: bool) returns (items: seq<bool>)
      requires state.Valid()
      modifies state
      ensures state.Valid()
      ensures (state.View(), items) == BatchDeleteRoutes(old(state.View()), ids, removeOrphanedClusters)
    {
      if |ids| == 0 {
        return [];
      }
      var removedClusterIds, survivors;
      items, removedClusterIds, survivors := DeleteRouteLoop(ids);
      if removeOrphanedClusters {
        RemoveOrphanRecords(removedClusterIds, survivors);
      }
      state.IncrementVersion();
    }

    method EnableOneRoute(id: Id, enabled: bool) returns (found: bool)
      requires state.Valid()
      modifies state.routes
      ensures (state.View().routes, found) == EnableRoute(old(state.View()).routes, id, enabled)
      ensures state.View() == old(state.View()).(routes := state.View().routes)
    {
      if Blank(id) {
        return false;
      }
      var i := state.FindRoute(id);
      if i == |state.routes| {
        return false;
      }
      if state.routes[i].enabled != enabled {
        state.routes[i].enabled := enabled;
      }
      state.RouteEdited(old(state.View()), i);
      found := true;
    }

    method EnableRouteLoop(ids: seq<Id>, enabled: bool) returns (items: seq<bool>)
      requires state.Valid()
      modifies state.routes
      ensures (state.View().routes, items) == EnableRoutes(old(state.View()).routes, ids, enabled)
      ensures state.View() == old(state.View()).(routes := state.View().routes)
    {
      items := [];
      var n := 0;
      while n < |ids|
        invariant n <= |ids|
        invariant (state.View().routes, items) == EnableRoutes(old(state.View()).routes, ids[..n], enabled)
        invariant state.View() == old(state.View()).(routes := state.View().routes)
      {
        assert ids[..n + 1][..n] == ids[..n];
        var found := EnableOneRoute(ids[n], enabled);
        items := items + [found];
        n := n + 1;
      }
      assert ids[..n] == ids;
    }

    method BatchSetRoutesEnabledAsync(ids: seq<Id>, enabled: bool) returns (items: seq<bool>)
      requires state.Valid()
      modifies state`version, state.routes
      ensures state.Valid()
      ensures (state.View(), items) == BatchSetRoutesEnabled(old(state.View()), ids, enabled)
    {
      items := EnableRouteLoop(ids, enabled);
      if true in items {
        state.IncrementVersion();
      } else {
        NothingEnabled(old(state.View()).routes, ids, enabled);
      }
    }

    // ----- importing -----

    method ImportKnownCluster(m: map<Id, DynamicClusterConfig>, cluster: ClusterConfig, ghost source: string, ghost createdBy: Option<string>)
      requires state.Valid() && ClusterMapOk(m, state.clusters) && cluster.id in m
      modifies m[cluster.id]
      ensures ClusterMapOk(m, state.clusters)
      ensures state.View() == PutCluster(old(state.View()), cluster, None, true, source, createdBy, false)
    {
      ClusterMapFinds(m, state.clusters, cluster.id);
      ghost var i := IndexOf(ClusterValues(state.clusters), ClusterKey, cluster.id);
      m[cluster.id].config := cluster;
      state.ClusterEdited(old(state.View()), i);
    }

    method ImportNewCluster(m: map<Id, DynamicClusterConfig>, cluster: ClusterConfig, source: string, createdBy: Option<string>)
      returns (m': map<Id, DynamicClusterConfig>)
      requires state.Valid() && ClusterMapOk(m, state.clusters) && cluster.id !in m
      modifies state`clusters, state`nextUid
      ensures state.Valid() && ClusterMapOk(m', state.clusters)
      ensures forall k :: 0 <= k < |state.clusters| ==> state.clusters[k] in old(state.clusters) || fresh(state.clusters[k])
      ensures state.View() == PutCluster(old(state.View()), cluster, None, true, source, createdBy, false)
    {
      ClusterMapFinds(m, state.clusters, cluster.id);
      var dc := state.AddNewCluster(cluster, None, source, createdBy);
      m' := m[cluster.id := dc];
      ClusterMapExtended(m, old(state.clusters), dc);
    }

    method ImportOneCluster(m: map<Id, DynamicClusterConfig>, cluster: ClusterConfig, source: string, createdBy: Option<string>)
      returns (m': map<Id, DynamicClusterConfig>)
      requires state.Valid() && ClusterMapOk(m, state.clusters)
      modifies state`clusters, state`nextUid, state.clusters
      ensures state.Valid() && ClusterMapOk(m', state.clusters)
      ensures forall k :: 0 <= k < |state.clusters| ==> state.clusters[k] in old(state.clusters) || fresh(state.clusters[k])
      ensures state.View() == PutCluster(old(state.View()), cluster, None, true, source, createdBy, false)
    {
      if cluster.id in m {
        m' := m;
        ImportKnownCluster(m, cluster, source, createdBy);
      } else {
        m' := ImportNewCluster(m, cluster, source, createdBy);
      }
    }

    method ImportAllClusters(clusters: seq<ClusterConfig>, source: string, createdBy: Option<string>)
      requires state.Valid() && Unique(ClusterValues(state.clusters), ClusterKey)
      modifies state`clusters, state`nextUid, state.clusters
      ensures state.Valid()
      ensures state.View() == ImportClusters(old(state.View()), clusters, source, createdBy)
    {
      var m := ClusterMap(state.clusters);
      ImportClusterList(m, clusters, source, createdBy);
    }

    method ImportClusterAt(m: map<Id, DynamicClusterConfig>, ghost before: WorkingSet, clusters: seq<ClusterConfig>, n: nat, source: string,
                           createdBy: Option<string>) returns (m': map<Id, DynamicClusterConfig>)
      requires state.Valid() && ClusterMapOk(m, state.clusters) && n < |clusters|
      requires state.View() == ImportClusters(before, clusters[..n], source, createdBy)
      modifies state`clusters, state`nextUid, state.clusters
      ensures state.Valid() && ClusterMapOk(m', state.clusters)
      ensures forall k :: 0 <= k < |state.clusters| ==> state.clusters[k] in old(state.clusters) || fresh(state.clusters[k])
      ensures state.View() == ImportClusters(before, clusters[..n + 1], source, createdBy)
    {
      ImportClustersStep(before, clusters, n, source, createdBy);
      m' := ImportOneCluster(m, clusters[n], source, createdBy);
    }

    method ImportClusterList(known: map<Id, DynamicClusterConfig>, clusters: seq<ClusterConfig>, source: string, createdBy: Option<string>)
      requires state.Valid() && ClusterMapOk(known, state.clusters)
      modifies state`clusters, state`nextUid, state.clusters
      ensures state.Valid()
      ensures state.View() == ImportClusters(old(state.View()), clusters, source, createdBy)
    {
      var m, n := known, 0;
      ghost var before := state.View();
      while n < |clusters|
        invariant n <= |clusters| && state.Valid() && ClusterMapOk(m, state.clusters)
        invariant forall k :: 0 <= k < |state.clusters| ==> state.clusters[k] in old(state.clusters) || fresh(state.clusters[k])
        invariant state.View() == ImportClusters(before, clusters[..n], source, createdBy)
      {
        m := ImportClusterAt(m, before, clusters, n, source, createdBy);
        n := n + 1;
      }
      assert clusters[..n] == clusters;
    }

    method EditRoute(existing: DynamicRouteConfig, ghost i: nat, config: RouteConfig, clusterUid: Option<Uid>)
      requires state.Valid() && i < |state.routes| && state.routes[i] == existing
      modifies existing
      ensures existing.config == config
      ensures state.View() == old(state.View()).(routes :=
                old(state.View()).routes[i := old(existing.Value()).(config := config, clusterUid := clusterUid)])
    {
      existing.config, existing.clusterUid := config, clusterUid;
      state.RouteEdited(old(state.View()), i);
    }

    method ImportKnownRoute(m: map<Id, DynamicRouteConfig>, route: RouteConfig, clusterUid: Option<Uid>,
                            ghost source: string, ghost createdBy: Option<string>)
      requires clusterUid == Resolve(ClusterValues(state.clusters), route.clusterId)
      requires state.Valid() && RouteMapOk(m, state.routes) && route.id in m
      modifies m[route.id]
      ensures RouteMapOk(m, state.routes)
      ensures state.View() == PutRoute(old(state.View()), route, source, createdBy, false)
    {
      RouteMapFinds(m, state.routes, route.id);
      ghost var i := IndexOf(RouteValues(state.routes), RouteKey, route.id);
      PutKnownRoute(state.View(), route, source, createdBy, false, i);
      EditRoute(m[route.id], i, route, clusterUid);
    }

    method ImportNewRoute(m: map<Id, DynamicRouteConfig>, route: RouteConfig, clusterUid: Option<Uid>, source: string, createdBy: Option<string>)
      returns (m': map<Id, DynamicRouteConfig>)
      requires clusterUid == Resolve(ClusterValues(state.clusters), route.clusterId)
      requires state.Valid() && RouteMapOk(m, state.routes) && route.id !in m
      modifies state`routes, state`nextUid
      ensures state.Valid() && RouteMapOk(m', state.routes)
      ensures forall k :: 0 <= k < |state.routes| ==> state.routes[k] in old(state.routes) || fresh(state.routes[k])
      ensures state.View() == PutRoute(old(state.View()), route, source, createdBy, false)
    {
      RouteMapFinds(m, state.routes, route.id);
      PutNewRoute(state.View(), route, source, createdBy, false);
      var dr := state.AddNewRoute(route, clusterUid, source, createdBy);
      m' := m[route.id := dr];
      RouteMapExtended(m, old(state.routes), dr);
    }

    method ImportOneRoute(m: map<Id, DynamicRouteConfig>, route: RouteConfig, source: string, createdBy: Option<string>)
      returns (m': map<Id, DynamicRouteConfig>)
      requires state.Valid() && RouteMapOk(m, state.routes)
      modifies state`routes, state`nextUid, state.routes
      ensures state.Valid() && RouteMapOk(m', state.routes)
      ensures forall k :: 0 <= k < |state.routes| ==> state.routes[k] in old(state.routes) || fresh(state.routes[k])
      ensures state.View() == PutRoute(old(state.View()), route, source, createdBy, false)
    {
      var clusterUid := state.ResolveClusterUid(route.clusterId);
      if route.id in m {
        m' := m;
        ImportKnownRoute(m, route, clusterUid, source, createdBy);
      } else {
        m' := ImportNewRoute(m, route, clusterUid, source, createdBy);
      }
    }

    method ImportNextRoute(m: map<Id, DynamicRouteConfig>, route: RouteConfig, source: string, createdBy: Option<string>)
      returns (m': map<Id, DynamicRouteConfig>)
      requires state.Valid() && RouteMapOk(m, state.routes)
      modifies state`routes, state`nextUid, state.routes
      ensures state.Valid() && RouteMapOk(m', state.routes)
      ensures forall k :: 0 <= k < |state.routes| ==> state.routes[k] in old(state.routes) || fresh(state.routes[k])
      ensures state.View() == PutRoute(old(state.View()), WithOrder(route), source, createdBy, false)
    {
      var normalized := if route.order.None? then route.(order := Some(MAX_ORDER)) else route;
      m' := ImportOneRoute(m, normalized, source, createdBy);
    }

    method ImportAllRoutes(routes: seq<RouteConfig>, source: string, createdBy: Option<string>)
      requires state.Valid() && Unique(RouteValues(state.routes), RouteKey)
      modifies state`routes, state`nextUid, state.routes
      ensures state.Valid()
      ensures forall k :: 0 <= k < |state.routes| ==> state.routes[k] in old(state.routes) || fresh(state.routes[k])
      ensures state.View() == ImportRoutes(old(state.View()), routes, source, createdBy)
    {
      var m := RouteMap(state.routes);
      ImportRouteList(m, routes, source, createdBy);
    }

    method ImportRouteAt(m: map<Id, DynamicRouteConfig>, ghost before: WorkingSet, routes: seq<RouteConfig>, n: nat, source: string,
                           createdBy: Option<string>) returns (m': map<Id, DynamicRouteConfig>)
      requires state.Valid() && RouteMapOk(m, state.routes) && n < |routes|
      requires state.View() == ImportRoutes(before, routes[..n], source, createdBy)
      modifies state`routes, state`nextUid, state.routes
      ensures state.Valid() && RouteMapOk(m', state.routes)
      ensures forall k :: 0 <= k < |state.routes| ==> state.routes[k] in old(state.routes) || fresh(state.routes[k])
      ensures state.View() == ImportRoutes(before, routes[..n + 1], source, createdBy)
    {
      ImportRoutesStep(before, routes, n, source, createdBy);
      m' := ImportNextRoute(m, routes[n], source, createdBy);
    }

    method ImportRouteList(known: map<Id, DynamicRouteConfig>, routes: seq<RouteConfig>, source: string, createdBy: Option<string>)
      requires state.Valid() && RouteMapOk(known, state.routes)
      modifies state`routes, state`nextUid, state.routes
      ensures state.Valid()
      ensures forall k :: 0 <= k < |state.routes| ==> state.routes[k] in old(state.routes) || fresh(state.routes[k])
      ensures state.View() == ImportRoutes(old(state.View()), routes, source, createdBy)
    {
      var m, n := known, 0;
      ghost var before := state.View();
      while n < |routes|
        invariant n <= |routes| && state.Valid() && RouteMapOk(m, state.routes)
        invariant forall k :: 0 <= k < |state.routes| ==> state.routes[k] in old(state.routes) || fresh(state.routes[k])
        invariant state.View() == ImportRoutes(before, routes[..n], source, createdBy)
      {
        m := ImportRouteAt(m, before, routes, n, source, createdBy);
        n := n + 1;
      }
      assert routes[..n] == routes;
    }

    method ImportBatchAsync(clusters: seq<ClusterConfig>, routes: seq<RouteConfig>, source: string, createdBy: Option<string>)
      requires state.Valid() && Unique(state.View().clusters, ClusterKey) && Unique(state.View().routes, RouteKey)
      modifies state, state.clusters, state.routes
      ensures state.Valid()
      ensures state.View() == ImportBatch(old(state.View()), clusters, routes, source, createdBy)
    {
      if |clusters| == 0 && |routes| == 0 {
        return;
      }
      ImportLists(clusters, routes, source, createdBy);
      state.NormalizeRoutes();
      state.IncrementVersion();
    }

    method ImportLists(clusters: seq<ClusterConfig>, routes: seq<RouteConfig>, source: string, createdBy: Option<string>)
      requires state.Valid() && Unique(state.View().clusters, ClusterKey) && Unique(state.View().routes, RouteKey)
      modifies state`clusters, state`routes, state`nextUid, state.clusters, state.routes
      ensures state.Valid()
      ensures forall k :: 0 <= k < |state.routes| ==> state.routes[k] in old(state.routes) || fresh(state.routes[k])
      ensures state.View() == ImportRoutes(ImportClusters(old(state.View()), clusters, source, createdBy), routes, source, createdBy)
    {
      ImportAllClusters(clusters, source, createdBy);
      ImportAllRoutes(routes, source, createdBy);
    }

    // ----- replacing everything -----

    /** Puts a known record back on the list with a new configuration, or a new record. */
    method ReplaceOneCluster(known: map<Id, DynamicClusterConfig>, ghost values: seq<Cluster>, config: ClusterConfig,
                          source: string, createdBy: Option<string>) returns (dc: DynamicClusterConfig)
      requires state.Valid()
      requires config.id in known ==>
                 known[config.id] !in state.clusters && Some(known[config.id].Value()) == FindCluster(values, config.id)
      requires config.id !in known ==> FindCluster(values, config.id).None?
      modifies state`clusters, state`nextUid, if config.id in known then {known[config.id]} else {}
      ensures state.Valid() && state.clusters == old(state.clusters) + [dc]
      ensures if config.id in known then dc == known[config.id] else fresh(dc)
      ensures (ClusterValues(state.clusters), state.nextUid) ==
              ReplaceCluster(values, old(ClusterValues(state.clusters)), old(state.nextUid), config, source, createdBy)
    {
      if config.id in known {
        dc := known[config.id];
        dc.config := config;
        state.AddCluster(dc);
      } else {
        dc := state.AddNewCluster(config, None, source, createdBy);
      }
    }

    method ReplaceNextCluster(known: map<Id, DynamicClusterConfig>, ghost values: seq<Cluster>, clusters: seq<ClusterConfig>, n: nat,
                           source: string, createdBy: Option<string>)
      requires state.Valid() && n < |clusters| && DistinctClusters(clusters)
      requires ClustersPending(known, state.clusters, values, clusters, n)
      modifies state`clusters, state`nextUid, known.Values
      ensures state.Valid() && ClustersPending(known, state.clusters, values, clusters, n + 1)
      ensures (ClusterValues(state.clusters), state.nextUid) ==
              ReplaceCluster(values, old(ClusterValues(state.clusters)), old(state.nextUid), clusters[n], source, createdBy)
    {
      var dc := ReplaceOneCluster(known, values, clusters[n], source, createdBy);
      assert forall k :: n < k < |clusters| && clusters[k].id in known ==> known[clusters[k].id] != dc;
    }

    /** The new list, from the records of the old one where the id is known. */
    method ReplaceClusterList(known: map<Id, DynamicClusterConfig>, ghost values: seq<Cluster>, clusters: seq<ClusterConfig>,
                         source: string, createdBy: Option<string>)
      requires state.Valid() && state.clusters == [] && DistinctClusters(clusters)
      requires ClustersPending(known, [], values, clusters, 0)
      modifies state`clusters, state`nextUid, known.Values
      ensures state.Valid()
      ensures (ClusterValues(state.clusters), state.nextUid) == ReplaceClusters(values, clusters, source, createdBy, old(state.nextUid))
    {
      ghost var uid := state.nextUid;
      var n := 0;
      while n < |clusters|
        invariant n <= |clusters| && state.Valid()
        invariant (ClusterValues(state.clusters), state.nextUid) == ReplaceClusters(values, clusters[..n], source, createdBy, uid)
        invariant ClustersPending(known, state.clusters, values, clusters, n)
      {
        ReplaceClustersStep(values, clusters, n, source, createdBy, uid);
        ReplaceNextCluster(known, values, clusters, n, source, createdBy);
        n := n + 1;
      }
      assert clusters[..n] == clusters;
    }

    /** Puts a known record back on the list with a new configuration, or a new record. */
    method ReplaceOneRoute(known: map<Id, DynamicRouteConfig>, ghost values: seq<Route>, config: RouteConfig, clusterUid: Option<Uid>,
                          source: string, createdBy: Option<string>) returns (dr: DynamicRouteConfig)
      requires state.Valid()
      requires config.id in known ==>
                 known[config.id] !in state.routes && Some(known[config.id].Value()) == FindRoute(values, config.id)
      requires config.id !in known ==> FindRoute(values, config.id).None?
      modifies state`routes, state`nextUid, if config.id in known then {known[config.id]} else {}
      ensures state.Valid() && state.routes == old(state.routes) + [dr]
      ensures if config.id in known then dr == known[config.id] else fresh(dr)
      ensures (RouteValues(state.routes), state.nextUid) ==
              ReplaceRoute(values, old(RouteValues(state.routes)), old(state.nextUid), config, clusterUid, source, createdBy)
    {
      if config.id in known {
        dr := known[config.id];
        dr.config, dr.clusterUid := config, clusterUid;
        state.AddRoute(dr);
      } else {
        dr := state.AddNewRoute(config, clusterUid, source, createdBy);
      }
    }

    method Prepare(route: RouteConfig) returns (nr: RouteConfig, clusterUid: Option<Uid>)
      ensures nr == WithOrder(route) && clusterUid == Resolve(ClusterValues(state.clusters), route.clusterId)
    {
      nr := if route.order.None? then route.(order := Some(MAX_ORDER)) else route;
      clusterUid := state.ResolveClusterUid(route.clusterId);
    }

    method ReplaceNextRoute(known: map<Id, DynamicRouteConfig>, ghost values: seq<Route>, routes: seq<RouteConfig>, n: nat,
                            config: RouteConfig, clusterUid: Option<Uid>, source: string, createdBy: Option<string>)
      requires state.Valid() && n < |routes| && DistinctRoutes(routes)
      requires RoutesPending(known, state.routes, values, routes, n) && config == WithOrder(routes[n])
      modifies state`routes, state`nextUid, known.Values
      ensures state.Valid() && RoutesPending(known, state.routes, values, routes, n + 1)
      ensures (RouteValues(state.routes), state.nextUid) ==
              ReplaceRoute(values, old(RouteValues(state.routes)), old(state.nextUid), config, clusterUid, source, createdBy)
    {
      var dr := ReplaceOneRoute(known, values, config, clusterUid, source, createdBy);
      assert forall k :: n < k < |routes| && routes[k].id in known ==> known[routes[k].id] != dr;
    }

    method ReplaceRouteAt(known: map<Id, DynamicRouteConfig>, ghost values: seq<Route>, routes: seq<RouteConfig>, n: nat,
                          source: string, createdBy: Option<string>)
      requires state.Valid() && n < |routes| && DistinctRoutes(routes) && RoutesPending(known, state.routes, values, routes, n)
      modifies state`routes, state`nextUid, known.Values
      ensures state.Valid() && RoutesPending(known, state.routes, values, routes, n + 1)
      ensures (RouteValues(state.routes), state.nextUid) ==
              ReplaceRoute(values, old(RouteValues(state.routes)), old(state.nextUid), WithOrder(routes[n]),
                           Resolve(ClusterValues(state.clusters), routes[n].clusterId), source, createdBy)
    {
      var nr, clusterUid := Prepare(routes[n]);
      ReplaceNextRoute(known, values, routes, n, nr, clusterUid, source, createdBy);
    }

    /** The new list, from the records of the old one where the id is known. */
    method ReplaceRouteList(known: map<Id, DynamicRouteConfig>, ghost values: seq<Route>, routes: seq<RouteConfig>,
                         source: string, createdBy: Option<string>)
      requires state.Valid() && state.routes == [] && DistinctRoutes(routes)
      requires RoutesPending(known, [], values, routes, 0)
      modifies state`routes, state`nextUid, known.Values
      ensures state.Valid()
      ensures (RouteValues(state.routes), state.nextUid) ==
              ReplaceRoutes(values, ClusterValues(state.clusters), routes, source, createdBy, old(state.nextUid))
    {
      ghost var uid := state.nextUid;
      ghost var cs := ClusterValues(state.clusters);
      var n := 0;
      while n < |routes|
        invariant n <= |routes| && state.Valid()
        invariant ClusterValues(state.clusters) == cs
        invariant (RouteValues(state.routes), state.nextUid) == ReplaceRoutes(values, cs, routes[..n], source, createdBy, uid)
        invariant RoutesPending(known, state.routes, values, routes, n)
      {
        ReplaceRoutesStep(values, cs, routes, n, source, createdBy, uid);
        ReplaceRouteAt(known, values, routes, n, source, createdBy);
        n := n + 1;
      }
      assert routes[..n] == routes;
    }

    /** Where the given lists repeat no id. */
    method ReplaceAllConfig(newRoutes: seq<RouteConfig>, newClusters: seq<ClusterConfig>, source: string, createdBy: Option<string>)
      requires state.Valid() && Unique(state.View().clusters, ClusterKey) && Unique(state.View().routes, RouteKey)
      requires DistinctClusters(newClusters) && DistinctRoutes(newRoutes)
      modifies state, state.clusters, state.routes
      ensures state.Valid()
      ensures state.View() == ReplaceAll(old(state.View()), newRoutes, newClusters, source, createdBy)
    {
      ReplaceAllClusters(newClusters, source, createdBy);
      ReplaceAllRoutes(newRoutes, source, createdBy);
      state.IncrementVersion();
    }

    method ReplaceAllClusters(newClusters: seq<ClusterConfig>, source: string, createdBy: Option<string>)
      requires state.Valid() && Unique(ClusterValues(state.clusters), ClusterKey) && DistinctClusters(newClusters)
      modifies state`clusters, state`nextUid, state.clusters
      ensures state.Valid()
      ensures (ClusterValues(state.clusters), state.nextUid) ==
              ReplaceClusters(old(ClusterValues(state.clusters)), newClusters, source, createdBy, old(state.nextUid))
    {
      var existing := ClusterMap(state.clusters);
      ghost var values := ClusterValues(state.clusters);
      ClustersPendingAtFirst(existing, state.clusters, newClusters);
      state.clusters := [];
      ReplaceClusterList(existing, values, newClusters, source, createdBy);
    }

    method ReplaceAllRoutes(newRoutes: seq<RouteConfig>, source: string, createdBy: Option<string>)
      requires state.Valid() && Unique(RouteValues(state.routes), RouteKey) && DistinctRoutes(newRoutes)
      modifies state`routes, state`nextUid, state.routes
      ensures state.Valid()
      ensures (RouteValues(state.routes), state.nextUid) ==
              ReplaceRoutes(old(RouteValues(state.routes)), ClusterValues(state.clusters), newRoutes, source, createdBy, old(state.nextUid))
    {
      var existing := RouteMap(state.routes);
      ghost var values := RouteValues(state.routes);
      RoutesPendingAtFirst(existing, state.routes, newRoutes);
      state.routes := [];
      ReplaceRouteList(existing, values, newRoutes, source, createdBy);
    }
  }
}
