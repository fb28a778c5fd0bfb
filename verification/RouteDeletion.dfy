/** Deleting routes in a batch, and which clusters the orphan clean-up takes with them. */
module RouteDeletion {
  import opened Wrappers
  import opened KeyedList
  import opened WorkingSet
  import opened WorkingSetInvariant

  predicate HasCluster(r: Route) {
    r.config.clusterId.Some? && !Blank(r.config.clusterId.value)
  }

  /** The first of the named routes that exists and names a cluster. */
  function FirstWithCluster(routes: seq<Route>, ids: seq<Id>): Option<Route>
    decreases |ids|
  {
    if ids == [] then None
    else
      var n := |ids| - 1;
      var earlier, r := FirstWithCluster(routes, ids[..n]), FindRoute(routes, ids[n]);
      if earlier.Some? then earlier
      else if !Blank(ids[n]) && r.Some? && HasCluster(r.value) then r
      else None
  }

  predicate Named(r: Route, ids: seq<Id>) {
    r.config.id in ids && !Blank(r.config.id)
  }

  /** A deletion leaves exactly the routes it does not name, and answers true once for each it finds. */
  lemma {:induction false} DeleteRoutesLeaves(routes: seq<Route>, ids: seq<Id>, clusters: seq<Cluster>, n: Uid)
    requires RoutesOk(routes, clusters, n)
    ensures
      var d := DeleteRoutes(routes, ids);
      && RoutesOk(d.routes, clusters, n)
      && forall r :: r in d.routes <==> r in routes && !Named(r, ids)
    decreases |ids|
  {
    if ids != [] {
      var init, id := ids[..|ids| - 1], ids[|ids| - 1];
      var d := DeleteRoutes(routes, init);
      DeleteRoutesLeaves(routes, init, clusters, n);
      var i := IndexOf(d.routes, RouteKey, id);
      assert forall r: Route :: Named(r, ids) <==> Named(r, init) || (r.config.id == id && !Blank(id)) by {
        assert ids == init + [id];
      }
      if !Blank(id) && i < |d.routes| {
        RouteRemoved(d.routes, i, clusters, n);
      } else if !Blank(id) {
        assert forall r :: r in d.routes ==> r.config.id != id;
      }
    }
  }

  lemma StillThere(routes: seq<Route>, ids: seq<Id>, id: Id, clusters: seq<Cluster>, n: Uid)
    requires RoutesOk(routes, clusters, n) && !Blank(id)
    ensures FindRoute(DeleteRoutes(routes, ids).routes, id).Some? <==> FindRoute(routes, id).Some? && id !in ids
  {
    var left := DeleteRoutes(routes, ids).routes;
    DeleteRoutesLeaves(routes, ids, clusters, n);
    if FindRoute(routes, id).Some? && id !in ids {
      assert FindRoute(routes, id).value in left;
    }
    if FindRoute(left, id).Some? {
      assert FindRoute(left, id).value in routes;
    }
  }

  lemma {:induction false} FlagCount(routes: seq<Route>, ids: seq<Id>)
    ensures |DeleteRoutes(routes, ids).flags| == |ids|
    decreases |ids|
  {
    if ids != [] {
      FlagCount(routes, ids[..|ids| - 1]);
    }
  }

  lemma LastFlag(routes: seq<Route>, ids: seq<Id>, id: Id, clusters: seq<Cluster>, n: Uid)
    requires RoutesOk(routes, clusters, n)
    ensures var d := DeleteRoutes(routes, ids);
            DeleteRoute(d, id).flags == d.flags + [!Blank(id) && FindRoute(routes, id).Some? && id !in ids]
  {
    if !Blank(id) {
      StillThere(routes, ids, id, clusters, n);
    }
  }

  /** A deletion answers true for an id exactly when it names a route and did not come before. */
  lemma {:induction false} DeleteRoutesFlags(routes: seq<Route>, ids: seq<Id>, clusters: seq<Cluster>, n: Uid, k: nat)
    requires RoutesOk(routes, clusters, n) && k < |ids|
    ensures
      var flags := DeleteRoutes(routes, ids).flags;
      |flags| == |ids| && (flags[k] <==> !Blank(ids[k]) && FindRoute(routes, ids[k]).Some? && ids[k] !in ids[..k])
    decreases |ids|
  {
    var m := |ids| - 1;
    var init, id := ids[..m], ids[m];
    FlagCount(routes, init);
    LastFlag(routes, init, id, clusters, n);
    assert DeleteRoutes(routes, ids) == DeleteRoute(DeleteRoutes(routes, init), id);
    if k < m {
      DeleteRoutesFlags(routes, init, clusters, n, k);
      assert init[k] == ids[k] && init[..k] == ids[..k];
    }
  }

  /** What the loop remembers once the first route with a cluster is gone. */
  ghost predicate Remembers(routes: seq<Route>, t: Route, d: Deletion) {
    && d.removedClusterIds != [] && t.config.clusterId == Some(d.removedClusterIds[0])
    && (forall id :: id in d.survivors <==>
          exists r :: r in routes && r.config.id != t.config.id && HasCluster(r) && Names(r, id))
    && (forall k :: 1 <= k < |d.removedClusterIds| ==> d.removedClusterIds[k] in d.survivors)
  }

  lemma ReferencedByOthers(routes: seq<Route>, left: seq<Route>, t: Route)
    requires forall r :: r in left ==> r in routes && r.config.id != t.config.id
    requires forall r :: r in routes && r.config.id != t.config.id && HasCluster(r) ==> r in left
    ensures forall id :: id in ReferencedIds(left) <==>
              exists r :: r in routes && r.config.id != t.config.id && HasCluster(r) && Names(r, id)
  {
    forall id
      ensures id in ReferencedIds(left) <==>
              exists r :: r in routes && r.config.id != t.config.id && HasCluster(r) && Names(r, id)
    {
      if r :| r in routes && r.config.id != t.config.id && HasCluster(r) && Names(r, id) {
        assert r in left;
      }
    }
  }

  lemma {:induction false} NamedHasNoCluster(routes: seq<Route>, ids: seq<Id>, r: Route)
    requires Unique(routes, RouteKey) && FirstWithCluster(routes, ids).None?
    requires r in routes && Named(r, ids)
    ensures !HasCluster(r)
    decreases |ids|
  {
    var init, id := ids[..|ids| - 1], ids[|ids| - 1];
    if r.config.id in init {
      NamedHasNoCluster(routes, init, r);
    } else {
      assert ids == init + [id];
      FindMember(routes, RouteKey, r);
    }
  }

  /** Before the first route with a cluster goes, only routes without one have gone. */
  lemma {:induction false} NothingRememberedYet(routes: seq<Route>, ids: seq<Id>, clusters: seq<Cluster>, n: Uid)
    requires RoutesOk(routes, clusters, n) && FirstWithCluster(routes, ids).None?
    ensures DeleteRoutes(routes, ids).removedClusterIds == [] && DeleteRoutes(routes, ids).survivors == {}
    decreases |ids|
  {
    if ids != [] {
      var init, id := ids[..|ids| - 1], ids[|ids| - 1];
      NothingRememberedYet(routes, init, clusters, n);
      var d := DeleteRoutes(routes, init);
      var i := IndexOf(d.routes, RouteKey, id);
      if !Blank(id) && i < |d.routes| {
        DeleteRoutesLeaves(routes, init, clusters, n);
        var r := d.routes[i];
        assert r in d.routes;
        assert r.config.id in ids by {
          assert ids[|ids| - 1] == r.config.id;
        }
        NamedHasNoCluster(routes, ids, r);
      }
    }
  }

  /** The deletion of the first route with a cluster. */
  lemma FirstRemembered(routes: seq<Route>, ids: seq<Id>, clusters: seq<Cluster>, n: Uid)
    requires RoutesOk(routes, clusters, n) && ids != []
    requires FirstWithCluster(routes, ids[..|ids| - 1]).None? && FirstWithCluster(routes, ids).Some?
    ensures Remembers(routes, FirstWithCluster(routes, ids).value, DeleteRoutes(routes, ids))
    ensures FirstWithCluster(routes, ids).value in routes && Named(FirstWithCluster(routes, ids).value, ids)
  {
    var init, id := ids[..|ids| - 1], ids[|ids| - 1];
    var d, t := DeleteRoutes(routes, init), FirstWithCluster(routes, ids).value;
    NothingRememberedYet(routes, init, clusters, n);
    DeleteRoutesLeaves(routes, init, clusters, n);
    forall r | r in routes && HasCluster(r)
      ensures r in d.routes
    {
      if Named(r, init) {
        NamedHasNoCluster(routes, init, r);
      }
    }
    FindMember(d.routes, RouteKey, t);
    var k := IndexOf(d.routes, RouteKey, id);
    RouteRemoved(d.routes, k, clusters, n);
    ReferencedByOthers(routes, RemoveAt(d.routes, k), t);
  }

  /** Later deletions add neither survivors nor clusters outside them. */
  lemma StillRemembers(routes: seq<Route>, t: Route, d: Deletion, id: Id)
    requires Remembers(routes, t, d) && forall r :: r in d.routes ==> r in routes && r.config.id != t.config.id
    ensures Remembers(routes, t, DeleteRoute(d, id))
  {
    var i := IndexOf(d.routes, RouteKey, id);
    if !Blank(id) && i < |d.routes| && HasCluster(d.routes[i]) {
      var r, left := d.routes[i], RemoveAt(d.routes, i);
      var c := r.config.clusterId.value;
      assert r in d.routes && Names(r, c) && c in d.survivors;
      forall x | x in ReferencedIds(left)
        ensures x in d.survivors
      {
        var q :| q in left && HasCluster(q) && Names(q, x);
        assert q in d.routes;
      }
      assert d.survivors + ReferencedIds(left) == d.survivors;
    }
  }

  lemma {:induction false} DeletionRemembers(routes: seq<Route>, ids: seq<Id>, clusters: seq<Cluster>, n: Uid)
    requires RoutesOk(routes, clusters, n) && FirstWithCluster(routes, ids).Some?
    ensures Remembers(routes, FirstWithCluster(routes, ids).value, DeleteRoutes(routes, ids))
    ensures FirstWithCluster(routes, ids).value in routes && Named(FirstWithCluster(routes, ids).value, ids)
    decreases |ids|
  {
    var init := ids[..|ids| - 1];
    if FirstWithCluster(routes, init).None? {
      FirstRemembered(routes, ids, clusters, n);
    } else {
      DeletionRemembers(routes, init, clusters, n);
      DeleteRoutesLeaves(routes, init, clusters, n);
      StillRemembers(routes, FirstWithCluster(routes, init).value, DeleteRoutes(routes, init), ids[|ids| - 1]);
    }
  }

  /** Of the remembered clusters only the first can be outside the survivors. */
  lemma {:induction false} OnlyFirstGoes(clusters: seq<Cluster>, orphans: seq<Id>, survivors: set<Id>)
    requires forall k :: 1 <= k < |orphans| ==> orphans[k] in survivors
    ensures RemoveOrphans(clusters, orphans, survivors) ==
            if orphans == [] || orphans[0] in survivors then clusters
            else var i := IndexOf(clusters, ClusterKey, orphans[0]); if i < |clusters| then RemoveAt(clusters, i) else clusters
    decreases |orphans|
  {
    if |orphans| == 1 {
      assert orphans[..0] == [];
    } else if |orphans| > 1 {
      OnlyFirstGoes(clusters, orphans[..|orphans| - 1], survivors);
    }
  }

  /** The one cluster the clean-up can take: that of the first deleted route with a cluster, if no other route ever named it. */
  function Orphan(ws: WorkingSet, ids: seq<Id>): Option<Id> {
    match FirstWithCluster(ws.routes, ids)
    case None => None
    case Some(t) =>
      if exists r :: r in ws.routes && r.config.id != t.config.id && r.config.clusterId == t.config.clusterId then None
      else t.config.clusterId
  }

  /**
    A batch deletion removes exactly the named routes, and with clean-up exactly the one
    orphan above: not the cluster of any later route, and not a cluster two of the deleted
    routes shared.
   */
  lemma OrphanCleanupExactly(ws: WorkingSet, ids: seq<Id>, removeOrphanedClusters: bool)
    requires Inv(ws)
    ensures
      var after := BatchDeleteRoutes(ws, ids, removeOrphanedClusters).0;
      && (forall r :: r in after.routes <==> r in ws.routes && !Named(r, ids))
      && (forall id :: FindCluster(after.clusters, id) ==
            if removeOrphanedClusters && Orphan(ws, ids) == Some(id) then None else FindCluster(ws.clusters, id))
      && ClustersOk(after.clusters, ws.nextUid) && RoutesOk(after.routes, ws.clusters, ws.nextUid)
  {
    var d := DeleteRoutes(ws.routes, ids);
    DeleteRoutesLeaves(ws.routes, ids, ws.clusters, ws.nextUid);
    if FirstWithCluster(ws.routes, ids).None? {
      NothingRememberedYet(ws.routes, ids, ws.clusters, ws.nextUid);
      OnlyFirstGoes(ws.clusters, [], {});
    } else {
      var t := FirstWithCluster(ws.routes, ids).value;
      DeletionRemembers(ws.routes, ids, ws.clusters, ws.nextUid);
      OnlyFirstGoes(ws.clusters, d.removedClusterIds, d.survivors);
      FirstHasCluster(ws.routes, ids);
      var x := t.config.clusterId.value;
      assert x in d.survivors <==> Orphan(ws, ids).None?;
      var i := IndexOf(ws.clusters, ClusterKey, x);
      if i < |ws.clusters| {
        ClusterRemoved(ws.clusters, i, ws.nextUid);
      }
    }
  }

  lemma {:induction false} FirstHasCluster(routes: seq<Route>, ids: seq<Id>)
    ensures FirstWithCluster(routes, ids).Some? ==> HasCluster(FirstWithCluster(routes, ids).value)
    decreases |ids|
  {
    if ids != [] {
      FirstHasCluster(routes, ids[..|ids| - 1]);
    }
  }

  /** No cluster a remaining route names is ever removed, and the invariant is kept. */
  lemma NeverRemovesReferenced(ws: WorkingSet, ids: seq<Id>, removeOrphanedClusters: bool)
    requires Inv(ws)
    ensures
      var after := BatchDeleteRoutes(ws, ids, removeOrphanedClusters).0;
      && Inv(after) && Shrinks(ws.clusters, after.clusters)
      && forall r :: r in after.routes ==>
           Resolve(after.clusters, r.config.clusterId) == Resolve(ws.clusters, r.config.clusterId)
  {
    var after := BatchDeleteRoutes(ws, ids, removeOrphanedClusters).0;
    OrphanCleanupExactly(ws, ids, removeOrphanedClusters);
    forall r | r in after.routes
      ensures Resolve(after.clusters, r.config.clusterId) == Resolve(ws.clusters, r.config.clusterId)
    {
      if HasCluster(r) && Orphan(ws, ids) == r.config.clusterId {
        if FirstWithCluster(ws.routes, ids).Some? {
          DeletionRemembers(ws.routes, ids, ws.clusters, ws.nextUid);
        }
      }
    }
    RoutesStayOk(after.routes, ws.clusters, after.clusters, ws.nextUid, ws.nextUid);
  }

  /** A cluster the caller would expect cleaned up: a deleted route named it, no remaining one does. */
  ghost predicate LeftOrphaned(ws: WorkingSet, ids: seq<Id>, id: Id) {
    && !Blank(id) && FindCluster(ws.clusters, id).Some?
    && (exists r :: r in ws.routes && Named(r, ids) && Names(r, id))
    && (forall r :: r in ws.routes && !Named(r, ids) ==> !Names(r, id))
  }

  /** Clean-up is complete exactly when every cluster left orphaned is the one it can take. */
  lemma FullCleanupIff(ws: WorkingSet, ids: seq<Id>)
    requires Inv(ws)
    ensures
      (forall id :: LeftOrphaned(ws, ids, id) ==> FindCluster(BatchDeleteRoutes(ws, ids, true).0.clusters, id).None?)
      <==> (forall id :: LeftOrphaned(ws, ids, id) ==> Orphan(ws, ids) == Some(id))
  {
    OrphanCleanupExactly(ws, ids, true);
  }

  lemma FindIn2<T, K>(a: T, b: T, key: T -> K)
    requires key(a) != key(b)
    ensures Unique([a, b], key) && Find([a, b], key, key(a)) == Some(a)
  {
    FindIs([a, b], key, 0);
  }

  /** Deleting the only two routes of a cluster together leaves the cluster behind. */
  lemma SharedOrphanStays(ws: WorkingSet, r: Route, q: Route, c: Cluster)
    requires Inv(ws) && ws.routes == [r, q] && ws.clusters == [c]
    requires HasCluster(r) && !Blank(r.config.id) && !Blank(q.config.id)
    requires Names(r, c.config.id) && Names(q, c.config.id)
    ensures LeftOrphaned(ws, [r.config.id, q.config.id], c.config.id)
    ensures FindCluster(BatchDeleteRoutes(ws, [r.config.id, q.config.id], true).0.clusters, c.config.id) == Some(c)
  {
    var ids := [r.config.id, q.config.id];
    assert RouteKey(ws.routes[0]) != RouteKey(ws.routes[1]);
    FindIn2(r, q, RouteKey);
    FindIs([c], ClusterKey, 0);
    assert r in ws.routes && q in ws.routes && Named(r, ids) && Named(q, ids);
    FirstOfPair(ws.routes, r, q.config.id);
    OrphanCleanupExactly(ws, ids, true);
  }

  lemma FirstOfPair(routes: seq<Route>, r: Route, id: Id)
    requires FindRoute(routes, r.config.id) == Some(r) && HasCluster(r) && !Blank(r.config.id)
    ensures FirstWithCluster(routes, [r.config.id, id]) == Some(r)
  {
    var one := [r.config.id];
    assert one[..0] == [] && [r.config.id, id][..1] == one;
    assert FirstWithCluster(routes, one) == Some(r);
  }

  function TwoRoutesOneCluster(clusterUid: Option<Uid>, destinations: Destinations): WorkingSet {
    WorkingSet([Route(RouteConfig("r", Some("c"), None, None, [], 0), 1, clusterUid, true, "", None),
                Route(RouteConfig("q", Some("c"), None, None, [], 0), 2, clusterUid, true, "", None)],
               [Cluster(ClusterConfig("c", destinations, None, None, None, 0), 0, None, "", None)], 0, 3)
  }

  lemma NamesAreNotBlank()
    ensures !Blank("r") && !Blank("q") && !Blank("c")
  {
    assert "r"[0] in "r" && "q"[0] in "q" && "c"[0] in "c";
  }

  lemma TwoRoutesOneClusterInv(clusterUid: Option<Uid>, destinations: Destinations)
    requires clusterUid == None || clusterUid == Some(0)
    ensures Inv(TwoRoutesOneCluster(clusterUid, destinations))
  {
    var ws := TwoRoutesOneCluster(clusterUid, destinations);
    NamesAreNotBlank();
    FindIs(ws.clusters, ClusterKey, 0);
    assert Resolve(ws.clusters, Some("c")) == Some(0);
    assert ws.routes[0].config.id[0] != ws.routes[1].config.id[0];
  }

  /** The clean-up of such a pair, run on one. */
  lemma SharedOrphanExample()
    ensures FindCluster(BatchDeleteRoutes(TwoRoutesOneCluster(Some(0), map[]), ["r", "q"], true).0.clusters, "c").Some?
    ensures LeftOrphaned(TwoRoutesOneCluster(Some(0), map[]), ["r", "q"], "c")
  {
    var ws := TwoRoutesOneCluster(Some(0), map[]);
    NamesAreNotBlank();
    TwoRoutesOneClusterInv(Some(0), map[]);
    SharedOrphanStays(ws, ws.routes[0], ws.routes[1], ws.clusters[0]);
  }
}
