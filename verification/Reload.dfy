/** Loading the tables again after a restart: which records come back as they were, and what is published then. */
module Reload {
  import opened Wrappers
  import opened KeyedList
  import opened WorkingSet
  import opened WorkingSetInvariant
  import opened Persister
  import opened PersisterTheorems
  import opened ConfigPublisher

  // ----- one record -----

  /**
    A route loads from a store in agreement as it was exactly when it was enabled, had an
    order and a cluster id, and its row has its author.
   */
  lemma RouteLoadsBackIff(s: Store, ws: WorkingSet, id: Id, r: Route)
    requires RouteAgrees(s, ws, id) && FindRoute(ws.routes, id) == Some(r)
    ensures id in s.routes
    ensures LoadRoute(s, id) == r <==>
            r.enabled && r.config.order.Some? && r.config.clusterId.Some? && s.routes[id].createdBy == r.createdBy
    ensures
      var loaded := LoadRoute(s, id);
      && loaded.enabled && loaded.createdBy == s.routes[id].createdBy
      && loaded.uid == r.uid && loaded.clusterUid == r.clusterUid && loaded.source == r.source
      && loaded.config.order == Some(if r.config.order.Some? then r.config.order.value else 0x7FFF_FFFF)
      && loaded.config.clusterId == Some(if r.config.clusterId.Some? then r.config.clusterId.value else "")
      && loaded.config == r.config.(order := loaded.config.order, clusterId := loaded.config.clusterId)
  {
  }

  /** After a full save the author is the only thing that depends on what the table held. */
  lemma RouteRoundTripIff(s: Store, ws: WorkingSet, id: Id, r: Route)
    requires Inv(ws) && FullSave(s, ws).done && FindRoute(ws.routes, id) == Some(r)
    ensures
      var saved := FullSave(s, ws).store;
      && id in saved.routes && saved.routes[id].createdBy == (if id in s.routes then s.routes[id].createdBy else r.createdBy)
      && (LoadRoute(saved, id) == r <==>
          r.enabled && r.config.order.Some? && r.config.clusterId.Some? && (id in s.routes ==> s.routes[id].createdBy == r.createdBy))
  {
    var saved := FullSave(s, ws).store;
    FullSaveAgrees(s, ws);
    assert RouteAgrees(saved, ws, id);
    RouteLoadsBackIff(saved, ws, id, r);
    UpsertedRoute(RoutesLeft(s, ws), ws.routes, id);
    assert id in RouteIds(ws.routes);
  }

  /** None of its destinations is probed at an address of its own. */
  predicate ProbedAtAddress(d: Destinations) {
    forall key :: key in d ==> d[key].health.None?
  }

  /** The same keys and addresses, none probed elsewhere. */
  ghost predicate WithoutProbes(loaded: Destinations, d: Destinations) {
    && (forall key :: key in loaded <==> key in d)
    && (forall key :: key in loaded ==> loaded[key].address == d[key].address && loaded[key].health.None?)
  }

  lemma AsReadIff(d: Destinations)
    ensures AsRead(d) == d <==> ProbedAtAddress(d)
  {
    if AsRead(d) == d {
      assert forall key :: key in d ==> AsRead(d)[key] == d[key];
    }
  }

  /** A cluster loads from a store in agreement as it was exactly when that holds of it and its row has its author. */
  lemma ClusterLoadsBackIff(s: Store, ws: WorkingSet, id: Id, c: Cluster)
    requires ClusterAgrees(s, ws, id) && FindCluster(ws.clusters, id) == Some(c)
    ensures id in s.clusters
    ensures
      var loaded := LoadCluster(s, id);
      && loaded.createdBy == s.clusters[id].createdBy
      && WithoutProbes(loaded.config.destinations, c.config.destinations)
      && loaded == c.(createdBy := loaded.createdBy, config := c.config.(destinations := loaded.config.destinations))
    ensures LoadCluster(s, id) == c <==> ProbedAtAddress(c.config.destinations) && s.clusters[id].createdBy == c.createdBy
  {
    assert SavedRows(s, id).config.destinations == DestinationRows(s, id);
    AsReadIff(c.config.destinations);
  }

  lemma ClusterRoundTripIff(s: Store, ws: WorkingSet, id: Id, c: Cluster)
    requires Inv(ws) && FullSave(s, ws).done && FindCluster(ws.clusters, id) == Some(c)
    ensures
      var saved := FullSave(s, ws).store;
      && id in saved.clusters && saved.clusters[id].createdBy == (if id in s.clusters then s.clusters[id].createdBy else c.createdBy)
      && (LoadCluster(saved, id) == c <==>
          ProbedAtAddress(c.config.destinations) && (id in s.clusters ==> s.clusters[id].createdBy == c.createdBy))
  {
    var saved := FullSave(s, ws).store;
    FullSaveAgrees(s, ws);
    assert ClusterAgrees(saved, ws, id);
    ClusterLoadsBackIff(saved, ws, id, c);
    UpsertedCluster(ClustersLeft(s, ws), ws.clusters, id);
    assert id in ClusterIds(ws.clusters);
  }

  // ----- the whole working set -----

  /**
    A load loses no record and invents none, and gives every cluster back but for its author
    and the addresses its destinations are probed at.
   */
  lemma LoadedLookup(s: Store, ws: WorkingSet, routes: seq<Route>, clusters: seq<Cluster>, id: Id)
    requires Agrees(s, ws) && Loads(s, routes, clusters)
    ensures
      match FindRoute(ws.routes, id)
      case None => FindRoute(routes, id).None?
      case Some(r) =>
        && FindRoute(routes, id).Some? && FindRoute(routes, id).value.enabled
        && FindRoute(routes, id).value.uid == r.uid && FindRoute(routes, id).value.clusterUid == r.clusterUid
        && FindRoute(routes, id).value.config.clusterId ==
           Some(if r.config.clusterId.Some? then r.config.clusterId.value else "")
    ensures
      match FindCluster(ws.clusters, id)
      case None => FindCluster(clusters, id).None?
      case Some(c) =>
        && FindCluster(clusters, id).Some?
        && WithoutProbes(FindCluster(clusters, id).value.config.destinations, c.config.destinations)
        && FindCluster(clusters, id).value ==
           c.(createdBy := FindCluster(clusters, id).value.createdBy,
              config := c.config.(destinations := FindCluster(clusters, id).value.config.destinations))
  {
    assert RouteAgrees(s, ws, id) && ClusterAgrees(s, ws, id);
    if FindCluster(ws.clusters, id).Some? {
      ClusterLoadsBackIff(s, ws, id, FindCluster(ws.clusters, id).value);
    }
  }

  lemma LoadedResolves(s: Store, ws: WorkingSet, routes: seq<Route>, clusters: seq<Cluster>, id: Option<Id>)
    requires Agrees(s, ws) && Loads(s, routes, clusters)
    ensures Resolve(clusters, Some(if id.Some? then id.value else "")) == Resolve(ws.clusters, id)
  {
    if id.Some? {
      LoadedLookup(s, ws, routes, clusters, id.value);
    }
  }

  /** A reload from a store in agreement gives a working set in order. */
  lemma ReloadKeepsInvariant(s: Store, ws: WorkingSet, routes: seq<Route>, clusters: seq<Cluster>, version: nat)
    requires Inv(ws) && Agrees(s, ws) && Loads(s, routes, clusters)
    ensures Inv(WorkingSet(routes, clusters, version, ws.nextUid))
  {
    LoadedClustersOk(s, ws, routes, clusters);
    LoadedRoutesOk(s, ws, routes, clusters);
  }

  lemma LoadedCluster(s: Store, ws: WorkingSet, routes: seq<Route>, clusters: seq<Cluster>, c: Cluster) returns (was: Cluster)
    requires Inv(ws) && Agrees(s, ws) && Loads(s, routes, clusters) && c in clusters
    ensures was in ws.clusters && was.config.id == c.config.id && was.uid == c.uid
  {
    FindMember(clusters, ClusterKey, c);
    LoadedLookup(s, ws, routes, clusters, c.config.id);
    was := FindCluster(ws.clusters, c.config.id).value;
  }

  lemma LoadedClustersOk(s: Store, ws: WorkingSet, routes: seq<Route>, clusters: seq<Cluster>)
    requires Inv(ws) && Agrees(s, ws) && Loads(s, routes, clusters)
    ensures ClustersOk(clusters, ws.nextUid)
  {
    forall c | c in clusters
      ensures c.uid < ws.nextUid
    {
      var was := LoadedCluster(s, ws, routes, clusters, c);
    }
    forall i, j | 0 <= i < j < |clusters|
      ensures clusters[i].uid != clusters[j].uid
    {
      var a := LoadedCluster(s, ws, routes, clusters, clusters[i]);
      var b := LoadedCluster(s, ws, routes, clusters, clusters[j]);
      assert ClusterKey(clusters[i]) != ClusterKey(clusters[j]);
      FindMember(ws.clusters, ClusterUidOf, a);
      FindMember(ws.clusters, ClusterUidOf, b);
    }
  }

  lemma LoadedRoute(s: Store, ws: WorkingSet, routes: seq<Route>, clusters: seq<Cluster>, r: Route) returns (was: Route)
    requires Inv(ws) && Agrees(s, ws) && Loads(s, routes, clusters) && r in routes
    ensures was in ws.routes && was.config.id == r.config.id && was.uid == r.uid && Coherent(r, clusters)
  {
    FindMember(routes, RouteKey, r);
    LoadedLookup(s, ws, routes, clusters, r.config.id);
    was := FindRoute(ws.routes, r.config.id).value;
    LoadedResolves(s, ws, routes, clusters, was.config.clusterId);
    assert Coherent(was, ws.clusters);
  }

  lemma LoadedRoutesOk(s: Store, ws: WorkingSet, routes: seq<Route>, clusters: seq<Cluster>)
    requires Inv(ws) && Agrees(s, ws) && Loads(s, routes, clusters)
    ensures RoutesOk(routes, clusters, ws.nextUid)
  {
    forall r | r in routes
      ensures r.uid < ws.nextUid && Coherent(r, clusters)
    {
      var was := LoadedRoute(s, ws, routes, clusters, r);
    }
    forall i, j | 0 <= i < j < |routes|
      ensures routes[i].uid != routes[j].uid
    {
      var a := LoadedRoute(s, ws, routes, clusters, routes[i]);
      var b := LoadedRoute(s, ws, routes, clusters, routes[j]);
      assert RouteKey(routes[i]) != RouteKey(routes[j]);
      FindMember(ws.routes, RouteUidOf, a);
      FindMember(ws.routes, RouteUidOf, b);
    }
  }

  // ----- the enabled flag -----

  /** After a reload every route is published, whether it was enabled or not; before, exactly the enabled ones were. */
  lemma ReloadPublishesEveryRoute(s: Store, ws: WorkingSet, routes: seq<Route>, clusters: seq<Cluster>, id: Id)
    requires Inv(ws) && Agrees(s, ws) && Loads(s, routes, clusters)
    ensures FindRoute(PublishedRoutes(routes), id).Some? <==> FindRoute(ws.routes, id).Some?
    ensures FindRoute(PublishedRoutes(ws.routes), id).Some? <==>
            FindRoute(ws.routes, id).Some? && FindRoute(ws.routes, id).value.enabled
  {
    LoadedLookup(s, ws, routes, clusters, id);
    PublishedExactlyEnabled(routes, id);
    PublishedExactlyEnabled(ws.routes, id);
  }

  /** So a restart publishes the same route ids as before exactly when no route was disabled. */
  lemma RestartPublishesSameIff(s: Store, ws: WorkingSet, routes: seq<Route>, clusters: seq<Cluster>)
    requires Inv(ws) && Agrees(s, ws) && Loads(s, routes, clusters)
    ensures (forall id :: FindRoute(PublishedRoutes(routes), id).Some? <==> FindRoute(PublishedRoutes(ws.routes), id).Some?)
            <==> (forall r :: r in ws.routes ==> r.enabled)
  {
    if forall r :: r in ws.routes ==> r.enabled {
      forall id
        ensures FindRoute(PublishedRoutes(routes), id).Some? <==> FindRoute(PublishedRoutes(ws.routes), id).Some?
      {
        ReloadPublishesEveryRoute(s, ws, routes, clusters, id);
      }
    } else {
      var r :| r in ws.routes && !r.enabled;
      FindMember(ws.routes, RouteKey, r);
      ReloadPublishesEveryRoute(s, ws, routes, clusters, r.config.id);
    }
  }

  function OneRoute(enabled: bool): WorkingSet {
    WorkingSet([Route(RouteConfig("r", Some("c"), None, Some(1), [], 0), 0, None, enabled, "", None)], [], 0, 1)
  }

  lemma OneRouteInv(enabled: bool)
    ensures Inv(OneRoute(enabled))
  {
    assert "c"[0] in "c" && Resolve([], Some("c")) == None;
  }

  /** A disabled route, saved in full into empty tables and loaded: it is enabled and published. */
  lemma DisabledRouteComesBackEnabled()
    ensures
      var s := FullSave(NOTHING_SAVED, OneRoute(false)).store;
      && "r" in s.routes && LoadRoute(s, "r") == OneRoute(true).routes[0]
      && PublishedRoutes(OneRoute(false).routes) == [] && |PublishedRoutes([LoadRoute(s, "r")])| == 1
  {
    var s, ws := FullSave(NOTHING_SAVED, OneRoute(false)).store, OneRoute(false);
    OneRouteInv(false);
    NothingSavedGoes(ws);
    var r := ws.routes[0];
    FindIs(ws.routes, RouteKey, 0);
    RouteRoundTripIff(NOTHING_SAVED, ws, "r", r);
    assert RouteAgrees(s, ws, "r");
    RouteLoadsBackIff(s, ws, "r", r);
    assert ws.routes[..0] == [] && [LoadRoute(s, "r")][..0] == [];
  }

  // ----- the address a destination is probed at -----

  function OneCluster(health: Option<string>): WorkingSet {
    WorkingSet([], [Cluster(ClusterConfig("c", map["d1" := Destination("http://a", health)], None, Some(0), None, 0), 0, None, "", None)],
               0, 1)
  }

  /** A cluster whose destination is probed elsewhere, saved in full into empty tables and loaded: it is probed at its address. */
  lemma ProbeAddressIsNotRead()
    ensures
      var s := FullSave(NOTHING_SAVED, OneCluster(Some("http://p"))).store;
      && "c" in s.clusters && LoadCluster(s, "c") == OneCluster(None).clusters[0] != OneCluster(Some("http://p")).clusters[0]
  {
    var s, ws := FullSave(NOTHING_SAVED, OneCluster(Some("http://p"))).store, OneCluster(Some("http://p"));
    NothingSavedGoes(ws);
    var c := ws.clusters[0];
    FindIs(ws.clusters, ClusterKey, 0);
    ClusterRoundTripIff(NOTHING_SAVED, ws, "c", c);
    assert ClusterAgrees(s, ws, "c");
    ClusterLoadsBackIff(s, ws, "c", c);
    assert c.config.destinations["d1"].health.Some?;
    assert AsRead(c.config.destinations) == OneCluster(None).clusters[0].config.destinations;
  }
}
