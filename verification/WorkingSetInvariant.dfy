/** What every operation on the working set keeps, and exactly which calls break it. */
module WorkingSetInvariant {
  import opened Wrappers
  import opened KeyedList
  import opened WorkingSet
  import IpIsolation

  function ClusterUidOf(c: Cluster): Uid { c.uid }

  function RouteUidOf(r: Route): Uid { r.uid }

  /** A recorded cluster uid is the one the route's cluster id resolves to. */
  predicate Coherent(r: Route, clusters: seq<Cluster>) {
    r.clusterUid.Some? ==> r.clusterUid == Resolve(clusters, r.config.clusterId)
  }

  ghost predicate ClustersOk(clusters: seq<Cluster>, n: Uid) {
    && Unique(clusters, ClusterKey) && Unique(clusters, ClusterUidOf)
    && forall c :: c in clusters ==> c.uid < n
  }

  ghost predicate RoutesOk(routes: seq<Route>, clusters: seq<Cluster>, n: Uid) {
    && Unique(routes, RouteKey) && Unique(routes, RouteUidOf)
    && forall r :: r in routes ==> r.uid < n && Coherent(r, clusters)
  }

  ghost predicate Inv(ws: WorkingSet) {
    ClustersOk(ws.clusters, ws.nextUid) && RoutesOk(ws.routes, ws.clusters, ws.nextUid)
  }

  // ----- steps on the cluster list -----

  /** Every id that resolves keeps its uid, and new ids get new uids. */
  ghost predicate Grows(before: seq<Cluster>, after: seq<Cluster>, n: Uid) {
    forall id :: match FindCluster(after, id)
      case None => FindCluster(before, id).None?
      case Some(c) => if FindCluster(before, id).Some? then c.uid == FindCluster(before, id).value.uid else c.uid >= n
  }

  /** Clusters are only taken away. */
  ghost predicate Shrinks(before: seq<Cluster>, after: seq<Cluster>) {
    forall id :: FindCluster(after, id).None? || FindCluster(after, id) == FindCluster(before, id)
  }

  lemma RoutesStayOk(routes: seq<Route>, before: seq<Cluster>, after: seq<Cluster>, n: Uid, n': Uid)
    requires RoutesOk(routes, before, n) && n <= n'
    requires forall r :: r in routes && r.clusterUid.Some? ==>
               Resolve(after, r.config.clusterId) == Resolve(before, r.config.clusterId)
    ensures RoutesOk(routes, after, n')
  {
  }

  lemma GrowthKeepsRoutes(routes: seq<Route>, before: seq<Cluster>, after: seq<Cluster>, n: Uid, n': Uid)
    requires RoutesOk(routes, before, n) && Grows(before, after, n) && n <= n'
    ensures RoutesOk(routes, after, n')
  {
    forall r | r in routes && r.clusterUid.Some?
      ensures Resolve(after, r.config.clusterId) == Resolve(before, r.config.clusterId)
    {
      var id := r.config.clusterId.value;
      assert FindCluster(before, id).Some?;
    }
    RoutesStayOk(routes, before, after, n, n');
  }

  lemma ClusterUpdated(clusters: seq<Cluster>, i: nat, c: Cluster, n: Uid)
    requires ClustersOk(clusters, n) && i < |clusters|
    requires c.config.id == clusters[i].config.id && c.uid == clusters[i].uid
    ensures ClustersOk(clusters[i := c], n) && Grows(clusters, clusters[i := c], n)
  {
    FindUpdate(clusters, ClusterUidOf, i, c, c.uid);
    FindIs(clusters, ClusterKey, i);
    forall id
      ensures FindCluster(clusters[i := c], id) == if id == c.config.id then Some(c) else FindCluster(clusters, id)
    {
      FindUpdate(clusters, ClusterKey, i, c, id);
    }
    FindUpdate(clusters, ClusterKey, i, c, c.config.id);
    assert forall x :: x in clusters[i := c] ==> x == c || x in clusters;
  }

  lemma ClusterAppended(clusters: seq<Cluster>, c: Cluster, n: Uid)
    requires ClustersOk(clusters, n) && FindCluster(clusters, c.config.id).None? && c.uid == n
    ensures ClustersOk(clusters + [c], n + 1) && Grows(clusters, clusters + [c], n)
  {
    FindAppend(clusters, ClusterUidOf, c, n);
    FindAppend(clusters, ClusterKey, c, c.config.id);
    forall id
      ensures FindCluster(clusters + [c], id) == if id == c.config.id then Some(c) else FindCluster(clusters, id)
    {
      FindAppend(clusters, ClusterKey, c, id);
    }
  }

  lemma ClusterRemoved(clusters: seq<Cluster>, i: nat, n: Uid)
    requires ClustersOk(clusters, n) && i < |clusters|
    ensures ClustersOk(RemoveAt(clusters, i), n) && Shrinks(clusters, RemoveAt(clusters, i))
    ensures forall id :: FindCluster(RemoveAt(clusters, i), id) ==
                         if id == clusters[i].config.id then None else FindCluster(clusters, id)
  {
    FindRemove(clusters, ClusterUidOf, i, n);
    FindRemove(clusters, ClusterKey, i, "");
    forall id
      ensures FindCluster(RemoveAt(clusters, i), id) == if id == clusters[i].config.id then None else FindCluster(clusters, id)
    {
      FindRemove(clusters, ClusterKey, i, id);
    }
  }

  /** Taking a cluster away breaks the invariant exactly when a route has recorded its uid. */
  lemma RemovalIff(routes: seq<Route>, clusters: seq<Cluster>, i: nat, n: Uid)
    requires ClustersOk(clusters, n) && RoutesOk(routes, clusters, n) && i < |clusters|
    ensures RoutesOk(routes, RemoveAt(clusters, i), n) <==>
            forall r :: r in routes && Names(r, clusters[i].config.id) ==> r.clusterUid.None?
  {
    var after, id := RemoveAt(clusters, i), clusters[i].config.id;
    ClusterRemoved(clusters, i, n);
    forall r | r in routes && !Names(r, id)
      ensures Resolve(after, r.config.clusterId) == Resolve(clusters, r.config.clusterId)
    {
    }
    assert Resolve(after, Some(id)) == None;
  }

  // ----- steps on the route list -----

  lemma RouteUpdated(routes: seq<Route>, i: nat, r: Route, clusters: seq<Cluster>, n: Uid)
    requires RoutesOk(routes, clusters, n) && i < |routes|
    requires r.config.id == routes[i].config.id && r.uid == routes[i].uid && Coherent(r, clusters)
    ensures RoutesOk(routes[i := r], clusters, n)
  {
    FindUpdate(routes, RouteUidOf, i, r, r.uid);
    FindUpdate(routes, RouteKey, i, r, r.config.id);
    assert forall x :: x in routes[i := r] ==> x == r || x in routes;
  }

  lemma RouteAppended(routes: seq<Route>, r: Route, clusters: seq<Cluster>, n: Uid, n': Uid)
    requires RoutesOk(routes, clusters, n) && n <= n' && r.uid < n'
    requires FindRoute(routes, r.config.id).None? && Find(routes, RouteUidOf, r.uid).None? && Coherent(r, clusters)
    ensures RoutesOk(routes + [r], clusters, n')
  {
    FindAppend(routes, RouteUidOf, r, r.uid);
    FindAppend(routes, RouteKey, r, r.config.id);
  }

  lemma RouteRemoved(routes: seq<Route>, i: nat, clusters: seq<Cluster>, n: Uid)
    requires RoutesOk(routes, clusters, n) && i < |routes|
    ensures RoutesOk(RemoveAt(routes, i), clusters, n)
    ensures forall r :: r in RemoveAt(routes, i) <==> r in routes && r.config.id != routes[i].config.id
  {
    FindRemove(routes, RouteUidOf, i, routes[i].uid);
    FindRemove(routes, RouteKey, i, "");
    var rest := RemoveAt(routes, i);
    forall r | r in routes && r.config.id != routes[i].config.id
      ensures r in rest
    {
      var k :| 0 <= k < |routes| && routes[k] == r;
      assert rest[if k < i then k else k - 1] == r;
    }
  }

  /** Routes that differ in nothing a lookup or the invariant sees. */
  lemma SameIdentities(routes: seq<Route>, routes': seq<Route>, before: seq<Cluster>, after: seq<Cluster>, n: Uid)
    requires RoutesOk(routes, before, n) && |routes'| == |routes|
    requires forall k :: 0 <= k < |routes| ==>
      RouteKey(routes'[k]) == RouteKey(routes[k]) && routes'[k].uid == routes[k].uid && Coherent(routes'[k], after)
    ensures RoutesOk(routes', after, n)
  {
    forall j, k | 0 <= j < k < |routes'|
      ensures RouteKey(routes'[j]) != RouteKey(routes'[k]) && RouteUidOf(routes'[j]) != RouteUidOf(routes'[k])
    {
      assert RouteKey(routes[j]) != RouteKey(routes[k]) && RouteUidOf(routes[j]) != RouteUidOf(routes[k]);
    }
    forall r | r in routes'
      ensures r.uid < n
    {
      var k :| 0 <= k < |routes'| && routes'[k] == r;
      assert routes[k] in routes;
    }
  }

  lemma NormalizeKeeps(routes: seq<Route>, clusters: seq<Cluster>, n: Uid)
    requires RoutesOk(routes, clusters, n)
    ensures RoutesOk(NormalizeAll(routes), clusters, n)
  {
    forall k | 0 <= k < |routes|
      ensures Coherent(NormalizeAll(routes)[k], clusters)
    {
      assert routes[k] in routes;
    }
    SameIdentities(routes, NormalizeAll(routes), clusters, clusters, n);
  }

  // ----- cluster manager -----

  lemma PutClusterKeeps(ws: WorkingSet, config: ClusterConfig, health: Option<int>, keepHealth: bool, source: string,
                        createdBy: Option<string>, retag: bool)
    requires Inv(ws)
    ensures
      var after := PutCluster(ws, config, health, keepHealth, source, createdBy, retag);
      Inv(after) && Grows(ws.clusters, after.clusters, ws.nextUid) && after.nextUid >= ws.nextUid
  {
    var i, after := IndexOf(ws.clusters, ClusterKey, config.id), PutCluster(ws, config, health, keepHealth, source, createdBy, retag);
    if i < |ws.clusters| {
      ClusterUpdated(ws.clusters, i, after.clusters[i], ws.nextUid);
    } else {
      ClusterAppended(ws.clusters, after.clusters[i], ws.nextUid);
    }
    GrowthKeepsRoutes(ws.routes, ws.clusters, after.clusters, ws.nextUid, after.nextUid);
  }

  lemma AddClusterConfigKeeps(ws: WorkingSet, config: ClusterConfig, source: string, createdBy: Option<string>)
    requires Inv(ws)
    ensures var after := AddClusterConfig(ws, config, source, createdBy).0;
            Inv(after) && Grows(ws.clusters, after.clusters, ws.nextUid)
  {
    PutClusterKeeps(ws, config, None, true, source, createdBy, true);
  }

  lemma AddClusterKeeps(ws: WorkingSet, id: Id, destinations: Addresses, policy: Option<string>, health: Option<int>,
                        source: string, createdBy: Option<string>, metadata: Option<int>)
    requires Inv(ws)
    ensures var after := AddCluster(ws, id, destinations, policy, health, source, createdBy, metadata).0;
            Inv(after) && Grows(ws.clusters, after.clusters, ws.nextUid)
  {
    var i := IndexOf(ws.clusters, ClusterKey, id);
    var kept := if metadata.None? && i < |ws.clusters| then ws.clusters[i].config.metadata else metadata;
    PutClusterKeeps(ws, ClusterConfig(id, Plain(destinations), policy, health, kept, 0), health, false, source, createdBy, true);
  }

  lemma CreateClusterKeeps(ws: WorkingSet, id: Id, destinations: Addresses, policy: Option<string>, health: Option<int>,
                           source: string, createdBy: Option<string>)
    requires Inv(ws)
    ensures var after := CreateCluster(ws, id, destinations, policy, health, source, createdBy).0;
            Inv(after) && Grows(ws.clusters, after.clusters, ws.nextUid)
  {
    if FindCluster(ws.clusters, id).None? {
      var after := CreateCluster(ws, id, destinations, policy, health, source, createdBy).0;
      ClusterAppended(ws.clusters, after.clusters[|ws.clusters|], ws.nextUid);
      GrowthKeepsRoutes(ws.routes, ws.clusters, after.clusters, ws.nextUid, after.nextUid);
    }
  }

  lemma UpdateClusterKeeps(ws: WorkingSet, id: Id, destinations: Option<Addresses>, policy: Option<string>, health: Option<int>)
    requires Inv(ws)
    ensures var after := UpdateCluster(ws, id, destinations, policy, health).0;
            Inv(after) && Grows(ws.clusters, after.clusters, ws.nextUid)
  {
    var i, after := IndexOf(ws.clusters, ClusterKey, id), UpdateCluster(ws, id, destinations, policy, health).0;
    if !Blank(id) && i < |ws.clusters| {
      ClusterUpdated(ws.clusters, i, after.clusters[i], ws.nextUid);
      GrowthKeepsRoutes(ws.routes, ws.clusters, after.clusters, ws.nextUid, after.nextUid);
    }
  }

  lemma RemoveClusterKeeps(ws: WorkingSet, id: Id)
    requires Inv(ws)
    ensures var after := RemoveCluster(ws, id).0; Inv(after) && Shrinks(ws.clusters, after.clusters)
  {
    var i := IndexOf(ws.clusters, ClusterKey, id);
    if RemoveCluster(ws, id).1.Accepted? {
      ClusterRemoved(ws.clusters, i, ws.nextUid);
      RemovalIff(ws.routes, ws.clusters, i, ws.nextUid);
    }
  }

  /** After a rename the new id resolves to the old uid, the old one to nothing, the rest as before. */
  lemma RenamedClusters(clusters: seq<Cluster>, i: nat, c: Cluster, n: Uid)
    requires ClustersOk(clusters, n) && i < |clusters| && c.uid == clusters[i].uid
    requires FindCluster(clusters, c.config.id).None?
    ensures ClustersOk(RemoveAt(clusters, i) + [c], n)
    ensures forall id :: FindCluster(RemoveAt(clusters, i) + [c], id) ==
                         if id == c.config.id then Some(c)
                         else if id == clusters[i].config.id then None
                         else FindCluster(clusters, id)
  {
    var rest := RemoveAt(clusters, i);
    ClusterRemoved(clusters, i, n);
    FindRemove(clusters, ClusterUidOf, i, c.uid);
    FindAppend(rest, ClusterUidOf, c, c.uid);
    FindAppend(rest, ClusterKey, c, c.config.id);
    forall id
      ensures FindCluster(rest + [c], id) == if id == c.config.id then Some(c) else FindCluster(rest, id)
    {
      FindAppend(rest, ClusterKey, c, id);
    }
    assert clusters[i] in clusters;
  }

  lemma RedirectedCoherent(r: Route, before: seq<Cluster>, after: seq<Cluster>, oldId: Id, newId: Id, uid: Uid)
    requires Coherent(r, before) && !Blank(newId)
    requires forall id :: id != newId && id != oldId ==> FindCluster(after, id) == FindCluster(before, id)
    requires FindCluster(before, newId).None? && FindCluster(after, newId).Some? && FindCluster(after, newId).value.uid == uid
    ensures Coherent(Redirected([r], oldId, newId, uid)[0], after)
  {
    if r.clusterUid.Some? && !Names(r, oldId) {
      assert r.config.clusterId.value != newId;
    }
  }

  lemma RenameClusterKeeps(ws: WorkingSet, oldId: Id, newId: Id, destinations: Addresses, policy: Option<string>,
                           health: Option<int>, source: string, createdBy: Option<string>)
    requires Inv(ws)
    ensures Inv(RenameCluster(ws, oldId, newId, destinations, policy, health, source, createdBy).0)
  {
    if RenameRefusal(ws, oldId, newId).None? {
      var i := IndexOf(ws.clusters, ClusterKey, oldId);
      var c := Renamed(ws.clusters[i], newId, destinations, policy, health, source, createdBy);
      var after, routes := RemoveAt(ws.clusters, i) + [c], Redirected(ws.routes, oldId, newId, c.uid);
      RenamedClusters(ws.clusters, i, c, ws.nextUid);
      forall k | 0 <= k < |routes|
        ensures Coherent(routes[k], after)
      {
        assert ws.routes[k] in ws.routes;
        RedirectedCoherent(ws.routes[k], ws.clusters, after, oldId, newId, c.uid);
        assert routes[k] == Redirected([ws.routes[k]], oldId, newId, c.uid)[0];
      }
      SameIdentities(ws.routes, routes, ws.clusters, after, ws.nextUid);
    }
  }

  // ----- route manager -----

  lemma PutRouteKeeps(ws: WorkingSet, config: RouteConfig, source: string, createdBy: Option<string>, retag: bool)
    requires Inv(ws)
    ensures var after := PutRoute(ws, config, source, createdBy, retag);
            Inv(after) && after.clusters == ws.clusters && after.nextUid >= ws.nextUid
  {
    var i, after := IndexOf(ws.routes, RouteKey, config.id), PutRoute(ws, config, source, createdBy, retag);
    if i < |ws.routes| {
      RouteUpdated(ws.routes, i, after.routes[i], ws.clusters, ws.nextUid);
    } else {
      RouteAppended(ws.routes, after.routes[i], ws.clusters, ws.nextUid, after.nextUid);
    }
  }

  lemma RegisterClusterKeeps(ws: WorkingSet, request: RegisterRequest, source: string, createdBy: Option<string>)
    requires Inv(ws)
    ensures var after := RegisterCluster(ws, request, source, createdBy);
            Inv(after) && Grows(ws.clusters, after.clusters, ws.nextUid)
  {
    var i, after := IndexOf(ws.clusters, ClusterKey, request.clusterName), RegisterCluster(ws, request, source, createdBy);
    if after.clusters != ws.clusters {
      if i < |ws.clusters| {
        ClusterUpdated(ws.clusters, i, after.clusters[i], ws.nextUid);
      } else {
        ClusterAppended(ws.clusters, after.clusters[i], ws.nextUid);
      }
      GrowthKeepsRoutes(ws.routes, ws.clusters, after.clusters, ws.nextUid, after.nextUid);
    }
  }

  lemma AddRouteKeeps(ws: WorkingSet, request: RegisterRequest, source: string, createdBy: Option<string>)
    requires Inv(ws)
    ensures var after := AddRoute(ws, request, source, createdBy).0;
            Inv(after) && Grows(ws.clusters, after.clusters, ws.nextUid)
  {
    PutRouteKeeps(ws, RequestedRoute(request), source, createdBy, true);
    RegisterClusterKeeps(PutRoute(ws, RequestedRoute(request), source, createdBy, true), request, source, createdBy);
  }

  lemma AddRouteConfigKeeps(ws: WorkingSet, config: RouteConfig, source: string, createdBy: Option<string>)
    requires Inv(ws)
    ensures var after := AddRouteConfig(ws, config, source, createdBy).0; Inv(after) && after.clusters == ws.clusters
  {
    PutRouteKeeps(ws, config, source, createdBy, true);
    var ws1 := PutRoute(ws, config, source, createdBy, true);
    NormalizeKeeps(ws1.routes, ws1.clusters, ws1.nextUid);
  }

  lemma SetRouteEnabledKeeps(ws: WorkingSet, id: Id, enabled: bool)
    requires Inv(ws)
    ensures var after := SetRouteEnabled(ws, id, enabled).0; Inv(after) && after.clusters == ws.clusters
  {
    var i := IndexOf(ws.routes, RouteKey, id);
    if !Blank(id) && i < |ws.routes| {
      assert ws.routes[i] in ws.routes;
      RouteUpdated(ws.routes, i, ws.routes[i].(enabled := enabled), ws.clusters, ws.nextUid);
    }
  }

  lemma RenameRouteKeeps(ws: WorkingSet, oldId: Id, newId: Id, request: RenameRequest, source: string, createdBy: Option<string>)
    requires Inv(ws)
    ensures var after := RenameRoute(ws, oldId, newId, request, source, createdBy).0; Inv(after) && after.clusters == ws.clusters
  {
    if RouteRenameRefusal(ws, oldId, newId).None? {
      var i, r := RenameRouteShape(ws, oldId, newId, request, source, createdBy);
      MovedRouteOk(ws.routes, ws.clusters, ws.nextUid, i, r);
    }
  }

  /** The old record goes and the new one, under its uid, comes last. */
  lemma RenameRouteShape(ws: WorkingSet, oldId: Id, newId: Id, request: RenameRequest, source: string, createdBy: Option<string>)
    returns (i: nat, r: Route)
    requires Inv(ws) && RouteRenameRefusal(ws, oldId, newId).None?
    ensures i == IndexOf(ws.routes, RouteKey, oldId) && i < |ws.routes|
    ensures RenameRoute(ws, oldId, newId, request, source, createdBy) == (Commit(ws.(routes := RemoveAt(ws.routes, i) + [r])), Accepted)
    ensures r.config.id == newId && r.uid == ws.routes[i].uid && r.enabled && r.clusterUid == Resolve(ws.clusters, r.config.clusterId)
    ensures FindRoute(ws.routes, newId).None?
  {
    i := IndexOf(ws.routes, RouteKey, oldId);
    WithoutIsRemoveAt(ws.routes, RouteKey, oldId);
    var config := RenamedConfig(ws.routes[i].config, newId, request);
    r := Route(config, ws.routes[i].uid, Resolve(ws.clusters, config.clusterId), true, source, createdBy);
  }

  lemma MovedRouteOk(routes: seq<Route>, clusters: seq<Cluster>, n: Uid, i: nat, r: Route)
    requires RoutesOk(routes, clusters, n) && i < |routes|
    requires r.uid == routes[i].uid && FindRoute(routes, r.config.id).None? && Coherent(r, clusters)
    ensures RoutesOk(RemoveAt(routes, i) + [r], clusters, n)
  {
    RouteRemoved(routes, i, clusters, n);
    FindRemove(routes, RouteUidOf, i, r.uid);
    FindRemove(routes, RouteKey, i, r.config.id);
    RouteAppended(RemoveAt(routes, i), r, clusters, n, n);
  }

  /** The cluster a client's removal takes away: the route's, when the client's is its only destination. */
  function ClusterGoneWith(ws: WorkingSet, name: Id, clientIp: Option<string>): Option<Id> {
    match FindRoute(ws.routes, name)
    case None => None
    case Some(r) =>
      if Blank(name) || clientIp.None? || Blank(clientIp.value) || r.config.clusterId.None? then None
      else match FindCluster(ws.clusters, r.config.clusterId.value)
        case None => None
        case Some(c) =>
          var key := IpIsolation.GetDestinationKey(clientIp.value);
          if key in c.config.destinations && |c.config.destinations - {key}| == 0 then r.config.clusterId else None
  }

  /** No other route may have recorded the uid of the cluster a client's removal takes away. */
  ghost predicate SafeRemoval(ws: WorkingSet, name: Id, clientIp: Option<string>) {
    match ClusterGoneWith(ws, name, clientIp)
    case None => true
    case Some(id) => forall r :: r in ws.routes && r.config.id != name && Names(r, id) ==> r.clusterUid.None?
  }

  lemma RouteAndClusterGone(ws: WorkingSet, i: nat, j: nat)
    requires Inv(ws) && i < |ws.routes| && j < |ws.clusters|
    ensures
      Inv(ws.(routes := RemoveAt(ws.routes, i), clusters := RemoveAt(ws.clusters, j))) <==>
      forall r :: r in ws.routes && r.config.id != ws.routes[i].config.id && Names(r, ws.clusters[j].config.id) ==> r.clusterUid.None?
    ensures Shrinks(ws.clusters, RemoveAt(ws.clusters, j))
  {
    RouteRemoved(ws.routes, i, ws.clusters, ws.nextUid);
    ClusterRemoved(ws.clusters, j, ws.nextUid);
    RemovalIff(RemoveAt(ws.routes, i), ws.clusters, j, ws.nextUid);
  }

  lemma RouteGoneClusterUpdated(ws: WorkingSet, i: nat, j: nat, c: Cluster)
    requires Inv(ws) && i < |ws.routes| && j < |ws.clusters|
    requires c.config.id == ws.clusters[j].config.id && c.uid == ws.clusters[j].uid
    ensures Inv(ws.(routes := RemoveAt(ws.routes, i), clusters := ws.clusters[j := c]))
    ensures Grows(ws.clusters, ws.clusters[j := c], ws.nextUid)
  {
    RouteRemoved(ws.routes, i, ws.clusters, ws.nextUid);
    ClusterUpdated(ws.clusters, j, c, ws.nextUid);
    GrowthKeepsRoutes(RemoveAt(ws.routes, i), ws.clusters, ws.clusters[j := c], ws.nextUid, ws.nextUid);
  }

  /** One cluster taken away at a place, or edited there but for its id and uid. */
  ghost predicate EditedAt(before: seq<Cluster>, after: seq<Cluster>, j: nat) {
    && j < |before|
    && (after == RemoveAt(before, j)
        || (|after| == |before| && after == before[j := after[j]]
            && after[j].config.id == before[j].config.id && after[j].uid == before[j].uid))
  }

  /** The cluster whose last destination goes with a client. */
  predicate LastOf(clusters: seq<Cluster>, id: Id, clientIp: string) {
    var c, key := FindCluster(clusters, id), IpIsolation.GetDestinationKey(clientIp);
    c.Some? && key in c.value.config.destinations && |c.value.config.destinations - {key}| == 0
  }

  lemma DropShape(clusters: seq<Cluster>, id: Id, clientIp: string)
    requires Unique(clusters, ClusterKey)
    ensures
      var after := DropDestination(clusters, id, clientIp);
      && (after == clusters || EditedAt(clusters, after, IndexOf(clusters, ClusterKey, id)))
      && (|after| < |clusters| <==> LastOf(clusters, id, clientIp))
      && |after| <= |clusters|
  {
    WithoutIsRemoveAt(clusters, ClusterKey, id);
  }

  lemma ClustersWithoutShape(clusters: seq<Cluster>, left: seq<Route>, id: Id, clientIp: Option<string>, cleanUp: bool)
    requires Unique(clusters, ClusterKey)
    ensures
      var after := ClustersWithout(clusters, left, Some(id), clientIp, cleanUp);
      && (after == clusters || EditedAt(clusters, after, IndexOf(clusters, ClusterKey, id)))
      && (ForClient(clientIp) ==> (|after| < |clusters| <==> LastOf(clusters, id, clientIp.value)))
      && (!ForClient(clientIp) && after != clusters ==> forall r :: r in left ==> !Names(r, id))
  {
    if ForClient(clientIp) {
      DropShape(clusters, id, clientIp.value);
    } else {
      WithoutIsRemoveAt(clusters, ClusterKey, id);
    }
  }

  /** What a removal does to the two lists, by where the route and its cluster stand in them. */
  lemma RemoveRouteShape(ws: WorkingSet, name: Id, clientIp: Option<string>, removeOrphanedCluster: bool)
    requires Inv(ws) && RemoveRoute(ws, name, clientIp, removeOrphanedCluster).1.Accepted?
    ensures
      var after := RemoveRoute(ws, name, clientIp, removeOrphanedCluster).0;
      var i := IndexOf(ws.routes, RouteKey, name);
      && i < |ws.routes| && after.routes == RemoveAt(ws.routes, i) && after.nextUid == ws.nextUid
      && (after.clusters == ws.clusters
          || (ws.routes[i].config.clusterId.Some?
              && EditedAt(ws.clusters, after.clusters, IndexOf(ws.clusters, ClusterKey, ws.routes[i].config.clusterId.value))))
      && (after.clusters == ws.clusters || |after.clusters| == |ws.clusters| ==> ClusterGoneWith(ws, name, clientIp).None?)
      && (after.clusters != ws.clusters && |after.clusters| < |ws.clusters| ==>
            ClusterGoneWith(ws, name, clientIp) == ws.routes[i].config.clusterId
            || forall r :: r in after.routes ==> !Names(r, ws.routes[i].config.clusterId.value))
      && (ClusterGoneWith(ws, name, clientIp).Some? ==> ClusterGoneWith(ws, name, clientIp) == ws.routes[i].config.clusterId)
  {
    WithoutIsRemoveAt(ws.routes, RouteKey, name);
    var i := IndexOf(ws.routes, RouteKey, name);
    if ws.routes[i].config.clusterId.Some? {
      var id := ws.routes[i].config.clusterId.value;
      ClustersWithoutShape(ws.clusters, RemoveAt(ws.routes, i), id, clientIp, removeOrphanedCluster);
      assert ForClient(clientIp) ==> ClusterGoneWith(ws, name, clientIp) ==
                                     if LastOf(ws.clusters, id, clientIp.value) then Some(id) else None;
    }
  }

  lemma RemoveRouteIff(ws: WorkingSet, name: Id, clientIp: Option<string>, removeOrphanedCluster: bool)
    requires Inv(ws)
    ensures
      var after := RemoveRoute(ws, name, clientIp, removeOrphanedCluster).0;
      && (Inv(after) <==> SafeRemoval(ws, name, clientIp))
      && (Grows(ws.clusters, after.clusters, ws.nextUid) || Shrinks(ws.clusters, after.clusters))
  {
    var (after, result) := RemoveRoute(ws, name, clientIp, removeOrphanedCluster);
    if result.Accepted? {
      var i := IndexOf(ws.routes, RouteKey, name);
      RemoveRouteShape(ws, name, clientIp, removeOrphanedCluster);
      RouteRemoved(ws.routes, i, ws.clusters, ws.nextUid);
      if after.clusters != ws.clusters {
        var j := IndexOf(ws.clusters, ClusterKey, ws.routes[i].config.clusterId.value);
        if |after.clusters| == |ws.clusters| {
          RouteGoneClusterUpdated(ws, i, j, after.clusters[j]);
        } else {
          RouteAndClusterGone(ws, i, j);
        }
      }
    }
  }
}
