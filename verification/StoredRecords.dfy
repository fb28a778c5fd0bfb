/** What each accepted operation stores, field by field, and that it stores nothing else. */
module StoredRecords {
  import opened Wrappers
  import opened KeyedList
  import opened WorkingSet
  import opened WorkingSetInvariant
  import opened WorkingSetBatches
  import opened RouteDeletion
  import opened WorkingSetTheorems
  import opened OperationGuards
  import IpIsolation

  /** Exactly the given keys, each with the address given for it and probed there. */
  ghost predicate Holds(d: Destinations, given: Addresses) {
    && (forall key :: key in d <==> key in given)
    && (forall key :: key in given ==> d[key].address == given[key] && d[key].health.None?)
  }

  function Or<T>(given: Option<T>, kept: Option<T>): Option<T> {
    if given.Some? then given else kept
  }

  /** A new record has the given source and author; a known one takes them when the source is given and another. */
  ghost predicate ClusterAuthored(before: Option<Cluster>, c: Cluster, source: string, createdBy: Option<string>) {
    match before
    case None => c.source == source && c.createdBy == createdBy
    case Some(b) =>
      if source == "" || source == b.source then c.source == b.source && c.createdBy == b.createdBy
      else c.source == source && c.createdBy == createdBy
  }

  ghost predicate RouteAuthored(before: Option<Route>, r: Route, source: string, createdBy: Option<string>) {
    match before
    case None => r.source == source && r.createdBy == createdBy
    case Some(b) =>
      if source == "" || source == b.source then r.source == b.source && r.createdBy == b.createdBy
      else r.source == source && r.createdBy == createdBy
  }

  ghost predicate OtherClustersStay(ws: WorkingSet, after: WorkingSet, id: Id) {
    forall other :: other != id ==> FindCluster(after.clusters, other) == FindCluster(ws.clusters, other)
  }

  ghost predicate OtherRoutesStay(ws: WorkingSet, after: WorkingSet, id: Id) {
    forall other :: other != id ==> FindRoute(after.routes, other) == FindRoute(ws.routes, other)
  }

  // ----- clusters -----

  lemma ClusterPut(ws: WorkingSet, after: WorkingSet, id: Id, c: Cluster)
    requires Inv(ws) && c.config.id == id
    requires
      var i := IndexOf(ws.clusters, ClusterKey, id);
      after.clusters == if i < |ws.clusters| then ws.clusters[i := c] else ws.clusters + [c]
    ensures FindCluster(after.clusters, id) == Some(c) && OtherClustersStay(ws, after, id)
  {
    var i := IndexOf(ws.clusters, ClusterKey, id);
    forall other
      ensures FindCluster(after.clusters, other) == if other == id then Some(c) else FindCluster(ws.clusters, other)
    {
      if i < |ws.clusters| {
        FindUpdate(ws.clusters, ClusterKey, i, c, other);
      } else {
        FindAppend(ws.clusters, ClusterKey, c, other);
      }
    }
  }

  /** A native configuration is stored as it is; a known record keeps its uid and its own health check. */
  lemma AddClusterConfigStores(ws: WorkingSet, config: ClusterConfig, source: string, createdBy: Option<string>)
    requires Inv(ws) && AddClusterConfig(ws, config, source, createdBy).1.Accepted?
    ensures
      var before, after := FindCluster(ws.clusters, config.id), AddClusterConfig(ws, config, source, createdBy).0;
      && OtherClustersStay(ws, after, config.id) && after.routes == ws.routes && after.version == ws.version + 1
      && match FindCluster(after.clusters, config.id)
         case None => false
         case Some(c) =>
           && c.config == config && ClusterAuthored(before, c, source, createdBy)
           && c.uid == (if before.Some? then before.value.uid else ws.nextUid)
           && c.health == (if before.Some? then before.value.health else None)
  {
    var i, after := IndexOf(ws.clusters, ClusterKey, config.id), AddClusterConfig(ws, config, source, createdBy).0;
    ClusterPut(ws, after, config.id, after.clusters[i]);
  }

  /** The given addresses, policy and health check; metadata left out are those the cluster had. */
  lemma AddClusterStores(ws: WorkingSet, id: Id, destinations: Addresses, policy: Option<string>, health: Option<int>,
                         source: string, createdBy: Option<string>, metadata: Option<int>)
    requires Inv(ws) && AddCluster(ws, id, destinations, policy, health, source, createdBy, metadata).1.Accepted?
    ensures
      var before, after := FindCluster(ws.clusters, id), AddCluster(ws, id, destinations, policy, health, source, createdBy, metadata).0;
      && OtherClustersStay(ws, after, id) && after.routes == ws.routes && after.version == ws.version + 1
      && match FindCluster(after.clusters, id)
         case None => false
         case Some(c) =>
           && Holds(c.config.destinations, destinations) && c.config.policy == policy
           && c.config.health == health && c.health == health && c.config.advanced == 0
           && c.config.metadata == Or(metadata, if before.Some? then before.value.config.metadata else None)
           && ClusterAuthored(before, c, source, createdBy) && c.uid == (if before.Some? then before.value.uid else ws.nextUid)
  {
    var c := AddedRecord(ws, id, destinations, policy, health, source, createdBy, metadata);
    ClusterPut(ws, AddCluster(ws, id, destinations, policy, health, source, createdBy, metadata).0, id, c);
  }

  /** The record an addition writes in place of the known one, or at the end. */
  lemma AddedRecord(ws: WorkingSet, id: Id, destinations: Addresses, policy: Option<string>, health: Option<int>,
                    source: string, createdBy: Option<string>, metadata: Option<int>) returns (c: Cluster)
    requires AddCluster(ws, id, destinations, policy, health, source, createdBy, metadata).1.Accepted?
    ensures
      var i, after := IndexOf(ws.clusters, ClusterKey, id), AddCluster(ws, id, destinations, policy, health, source, createdBy, metadata).0;
      && after.clusters == (if i < |ws.clusters| then ws.clusters[i := c] else ws.clusters + [c])
      && after.routes == ws.routes && after.version == ws.version + 1
    ensures
      var before := FindCluster(ws.clusters, id);
      && c.config.id == id && Holds(c.config.destinations, destinations) && c.config.policy == policy
      && c.config.health == health && c.health == health && c.config.advanced == 0
      && c.config.metadata == Or(metadata, if before.Some? then before.value.config.metadata else None)
      && ClusterAuthored(before, c, source, createdBy) && c.uid == (if before.Some? then before.value.uid else ws.nextUid)
  {
    var i, after := IndexOf(ws.clusters, ClusterKey, id), AddCluster(ws, id, destinations, policy, health, source, createdBy, metadata).0;
    c := after.clusters[i];
  }

  lemma CreateClusterStores(ws: WorkingSet, id: Id, destinations: Addresses, policy: Option<string>, health: Option<int>,
                            source: string, createdBy: Option<string>)
    requires Inv(ws) && CreateCluster(ws, id, destinations, policy, health, source, createdBy).1.Accepted?
    ensures
      var after := CreateCluster(ws, id, destinations, policy, health, source, createdBy).0;
      && FindCluster(ws.clusters, id).None?
      && OtherClustersStay(ws, after, id) && after.routes == ws.routes && after.version == ws.version + 1
      && match FindCluster(after.clusters, id)
         case None => false
         case Some(c) =>
           && Holds(c.config.destinations, destinations) && c.config.policy == policy
           && c.config.health == health && c.health == health && c.config.metadata.None? && c.config.advanced == 0
           && c.uid == ws.nextUid && c.source == source && c.createdBy == createdBy
  {
    var after := CreateCluster(ws, id, destinations, policy, health, source, createdBy).0;
    ClusterPut(ws, after, id, after.clusters[|ws.clusters|]);
  }

  /** What is given replaces what was there; everything else of the record stays. */
  lemma UpdateClusterStores(ws: WorkingSet, id: Id, destinations: Option<Addresses>, policy: Option<string>, health: Option<int>)
    requires Inv(ws) && UpdateCluster(ws, id, destinations, policy, health).1.Accepted?
    ensures
      var before, after := FindCluster(ws.clusters, id), UpdateCluster(ws, id, destinations, policy, health).0;
      && before.Some?
      && OtherClustersStay(ws, after, id) && after.routes == ws.routes && after.version == ws.version + 1
      && match FindCluster(after.clusters, id)
         case None => false
         case Some(c) =>
           && (if destinations.Some? then Holds(c.config.destinations, destinations.value)
               else c.config.destinations == before.value.config.destinations)
           && c.config.policy == Or(policy, before.value.config.policy)
           && c.config.health == Or(health, before.value.config.health) && c.health == Or(health, before.value.health)
           && c.config.metadata == before.value.config.metadata && c.config.advanced == before.value.config.advanced
           && c.uid == before.value.uid && c.source == before.value.source && c.createdBy == before.value.createdBy
  {
    var i, after := IndexOf(ws.clusters, ClusterKey, id), UpdateCluster(ws, id, destinations, policy, health).0;
    ClusterPut(ws, after, id, after.clusters[i]);
  }

  lemma RemoveClusterLeaves(ws: WorkingSet, id: Id)
    requires Inv(ws) && RemoveCluster(ws, id).1.Accepted?
    ensures
      var after := RemoveCluster(ws, id).0;
      && FindCluster(ws.clusters, id).Some? && FindCluster(after.clusters, id).None?
      && OtherClustersStay(ws, after, id) && after.routes == ws.routes && after.version == ws.version + 1
  {
    var i, after := IndexOf(ws.clusters, ClusterKey, id), RemoveCluster(ws, id).0;
    forall other
      ensures FindCluster(after.clusters, other) == if other == id then None else FindCluster(ws.clusters, other)
    {
      FindRemove(ws.clusters, ClusterKey, i, other);
    }
  }

  /**
    Under the new id and the old uid: what is given replaces what was there. Exactly the
    routes that named the old id name the new one, with that uid recorded.
   */
  lemma RenameClusterStores(ws: WorkingSet, oldId: Id, newId: Id, destinations: Addresses, policy: Option<string>,
                            health: Option<int>, source: string, createdBy: Option<string>)
    requires Inv(ws) && RenameCluster(ws, oldId, newId, destinations, policy, health, source, createdBy).1.Accepted?
    ensures
      var before, after := FindCluster(ws.clusters, oldId), RenameCluster(ws, oldId, newId, destinations, policy, health, source, createdBy).0;
      && before.Some? && FindCluster(ws.clusters, newId).None? && FindCluster(after.clusters, oldId).None?
      && (forall id :: id != oldId && id != newId ==> FindCluster(after.clusters, id) == FindCluster(ws.clusters, id))
      && |after.routes| == |ws.routes| && after.version == ws.version + 1
      && (forall k :: 0 <= k < |ws.routes| ==>
            var r := ws.routes[k];
            after.routes[k] == if r.config.clusterId != Some(oldId) then r
                               else r.(clusterUid := Some(before.value.uid), config := r.config.(clusterId := Some(newId))))
      && match FindCluster(after.clusters, newId)
         case None => false
         case Some(c) =>
           && (if destinations != map[] then Holds(c.config.destinations, destinations)
               else c.config.destinations == before.value.config.destinations)
           && c.config.policy == Or(policy, before.value.config.policy)
           && c.config.health == Or(health, before.value.config.health) && c.health == Or(health, before.value.health)
           && c.config.metadata == before.value.config.metadata && c.config.advanced == before.value.config.advanced
           && c.uid == before.value.uid && c.source == source && c.createdBy == createdBy
  {
    var after := RenameCluster(ws, oldId, newId, destinations, policy, health, source, createdBy).0;
    var i := IndexOf(ws.clusters, ClusterKey, oldId);
    RenamedClusters(ws.clusters, i, after.clusters[|ws.clusters| - 1], ws.nextUid);
  }

  // ----- routes -----

  lemma RoutePut(ws: WorkingSet, after: WorkingSet, id: Id, r: Route)
    requires Inv(ws) && r.config.id == id
    requires
      var i := IndexOf(ws.routes, RouteKey, id);
      after.routes == if i < |ws.routes| then ws.routes[i := r] else ws.routes + [r]
    ensures FindRoute(after.routes, id) == Some(r) && OtherRoutesStay(ws, after, id)
  {
    var i := IndexOf(ws.routes, RouteKey, id);
    forall other
      ensures FindRoute(after.routes, other) == if other == id then Some(r) else FindRoute(ws.routes, other)
    {
      if i < |ws.routes| {
        FindUpdate(ws.routes, RouteKey, i, r, other);
      } else {
        FindAppend(ws.routes, RouteKey, r, other);
      }
    }
  }

  /** The cluster of an id that is named, looked up when the route is stored. */
  ghost predicate Resolves(uid: Option<Uid>, clusters: seq<Cluster>, id: Option<Id>) {
    match uid
    case Some(u) => id.Some? && !Blank(id.value) && FindCluster(clusters, id.value).Some? && FindCluster(clusters, id.value).value.uid == u
    case None => id.None? || Blank(id.value) || FindCluster(clusters, id.value).None?
  }

  lemma PutRouteStores(ws: WorkingSet, config: RouteConfig, source: string, createdBy: Option<string>)
    requires Inv(ws)
    ensures
      var before, after := FindRoute(ws.routes, config.id), PutRoute(ws, config, source, createdBy, true);
      && OtherRoutesStay(ws, after, config.id) && after.clusters == ws.clusters && after.nextUid >= ws.nextUid
      && match FindRoute(after.routes, config.id)
         case None => false
         case Some(r) =>
           && r.config == config && Resolves(r.clusterUid, ws.clusters, config.clusterId)
           && RouteAuthored(before, r, source, createdBy)
           && r.uid == (if before.Some? then before.value.uid else ws.nextUid)
           && r.enabled == (before.Some? ==> before.value.enabled)
  {
    var i, after := IndexOf(ws.routes, RouteKey, config.id), PutRoute(ws, config, source, createdBy, true);
    RoutePut(ws, after, config.id, after.routes[i]);
  }

  /** A registered route has exactly what was requested, and a missing order is the largest. */
  lemma AddRouteStores(ws: WorkingSet, request: RegisterRequest, source: string, createdBy: Option<string>)
    requires Inv(ws)
    ensures
      var before, after := FindRoute(ws.routes, request.routeName), AddRoute(ws, request, source, createdBy).0;
      && OtherRoutesStay(ws, after, request.routeName) && after.version == ws.version + 1
      && match FindRoute(after.routes, request.routeName)
         case None => false
         case Some(r) =>
           && r.config.clusterId == Some(request.clusterName) && r.config.path == Some(request.path)
           && r.config.order == Some(if request.order.Some? then request.order.value else 0x7FFF_FFFF)
           && r.config.transforms == request.transforms && r.config.advanced == 0
           && Resolves(r.clusterUid, ws.clusters, Some(request.clusterName))
           && RouteAuthored(before, r, source, createdBy)
           && r.uid == (if before.Some? then before.value.uid else ws.nextUid)
           && r.enabled == (before.Some? ==> before.value.enabled)
  {
    PutRouteStores(ws, RequestedRoute(request), source, createdBy);
    RegisteredRoutes(PutRoute(ws, RequestedRoute(request), source, createdBy, true), request, source, createdBy);
  }

  lemma RegisteredRoutes(ws: WorkingSet, request: RegisterRequest, source: string, createdBy: Option<string>)
    ensures RegisterCluster(ws, request, source, createdBy).routes == ws.routes
    ensures RegisterCluster(ws, request, source, createdBy).version == ws.version
  {
  }

  /** One destination with the requested address, under the client's key and with the IP policy when it is isolated. */
  ghost predicate NewlyRegistered(c: Cluster, request: RegisterRequest, source: string, createdBy: Option<string>) {
    var isolated := request.useIpIsolation && request.clientIp.Some? && !Blank(request.clientIp.value);
    && Holds(c.config.destinations, map[(if isolated then IpIsolation.GetDestinationKey(request.clientIp.value) else "d1") := request.address])
    && c.config.policy == (if isolated then Some(IpIsolation.IP_BASED) else None)
    && c.config.health.None? && c.health.None? && c.config.metadata.None? && c.config.advanced == 0
    && c.source == source && c.createdBy == createdBy
  }

  /** The requested address under the plain key unless it is blank or isolation was asked for, and nothing else. */
  ghost predicate Reregistered(before: Cluster, c: Cluster, request: RegisterRequest) {
    && c == before.(config := before.config.(destinations := c.config.destinations))
    && (if Blank(request.address) || request.useIpIsolation then c == before
        else
          && (forall key :: key in c.config.destinations <==> key == "d1" || key in before.config.destinations)
          && (forall key :: key in c.config.destinations ==>
                c.config.destinations[key] == if key == "d1" then Destination(request.address, None) else before.config.destinations[key]))
  }

  lemma RegisterClusterStores(ws: WorkingSet, request: RegisterRequest, source: string, createdBy: Option<string>)
    requires Inv(ws)
    ensures
      var before, after := FindCluster(ws.clusters, request.clusterName), RegisterCluster(ws, request, source, createdBy);
      && OtherClustersStay(ws, after, request.clusterName)
      && match FindCluster(after.clusters, request.clusterName)
         case None => false
         case Some(c) =>
           if before.None? then NewlyRegistered(c, request, source, createdBy) && c.uid == ws.nextUid
           else Reregistered(before.value, c, request)
  {
    var i, after := IndexOf(ws.clusters, ClusterKey, request.clusterName), RegisterCluster(ws, request, source, createdBy);
    if i == |ws.clusters| {
      ClusterPut(ws, after, request.clusterName, after.clusters[i]);
    } else if !Blank(request.address) && !request.useIpIsolation {
      ClusterPut(ws, after, request.clusterName, after.clusters[i]);
    }
  }

  /** The cluster a registration creates, or what it does to a known one. */
  lemma AddRouteStoresCluster(ws: WorkingSet, request: RegisterRequest, source: string, createdBy: Option<string>)
    requires Inv(ws)
    ensures
      var before, after := FindCluster(ws.clusters, request.clusterName), AddRoute(ws, request, source, createdBy).0;
      && OtherClustersStay(ws, after, request.clusterName)
      && match FindCluster(after.clusters, request.clusterName)
         case None => false
         case Some(c) =>
           if before.None? then NewlyRegistered(c, request, source, createdBy) && c.uid >= ws.nextUid
           else Reregistered(before.value, c, request)
  {
    PutRouteKeeps(ws, RequestedRoute(request), source, createdBy, true);
    PutRouteStores(ws, RequestedRoute(request), source, createdBy);
    RegisterClusterStores(PutRoute(ws, RequestedRoute(request), source, createdBy, true), request, source, createdBy);
  }

  /** A native route configuration is stored with its transforms corrected, and so are those of every other route. */
  lemma AddRouteConfigStores(ws: WorkingSet, config: RouteConfig, source: string, createdBy: Option<string>, other: Id)
    requires Inv(ws) && AddRouteConfig(ws, config, source, createdBy).1.Accepted?
    ensures
      var before, after := FindRoute(ws.routes, config.id), AddRouteConfig(ws, config, source, createdBy).0;
      && after.clusters == ws.clusters && after.version == ws.version + 1
      && (other != config.id ==>
            FindRoute(after.routes, other) ==
            match FindRoute(ws.routes, other)
            case None => None
            case Some(r) => Some(r.(config := NormalizeTransforms(r.config))))
      && match FindRoute(after.routes, config.id)
         case None => false
         case Some(r) =>
           && r.config == NormalizeTransforms(config) && Resolves(r.clusterUid, ws.clusters, config.clusterId)
           && RouteAuthored(before, r, source, createdBy)
           && r.uid == (if before.Some? then before.value.uid else ws.nextUid)
           && r.enabled == (before.Some? ==> before.value.enabled)
  {
    var placed := PutRoute(ws, config, source, createdBy, true);
    PutRouteStores(ws, config, source, createdBy);
    NormalizedLookup(placed.routes, config.id);
    NormalizedLookup(placed.routes, other);
  }

  /** The flag alone. */
  lemma SetRouteEnabledStores(ws: WorkingSet, id: Id, enabled: bool)
    requires Inv(ws) && SetRouteEnabled(ws, id, enabled).1.Accepted?
    ensures
      var before, after := FindRoute(ws.routes, id), SetRouteEnabled(ws, id, enabled).0;
      && before.Some? && FindRoute(after.routes, id) == Some(before.value.(enabled := enabled))
      && OtherRoutesStay(ws, after, id) && after.clusters == ws.clusters && after.version == ws.version + 1
  {
    var i, after := IndexOf(ws.routes, RouteKey, id), SetRouteEnabled(ws, id, enabled).0;
    RoutePut(ws, after, id, after.routes[i]);
  }

  /** Under the new id and the old uid, enabled: what is given replaces what was there. */
  lemma RenameRouteStores(ws: WorkingSet, oldId: Id, newId: Id, request: RenameRequest, source: string, createdBy: Option<string>)
    requires Inv(ws) && RenameRoute(ws, oldId, newId, request, source, createdBy).1.Accepted?
    ensures
      var before, after := FindRoute(ws.routes, oldId), RenameRoute(ws, oldId, newId, request, source, createdBy).0;
      && before.Some? && FindRoute(ws.routes, newId).None? && FindRoute(after.routes, oldId).None?
      && after.clusters == ws.clusters && after.version == ws.version + 1
      && match FindRoute(after.routes, newId)
         case None => false
         case Some(r) =>
           && r.config.clusterId == Or(request.clusterName, before.value.config.clusterId)
           && r.config.path == Or(request.path, before.value.config.path)
           && r.config.order == Or(request.order, before.value.config.order)
           && r.config.transforms == (if request.transforms.Some? then request.transforms.value else before.value.config.transforms)
           && r.config.advanced == before.value.config.advanced
           && r.uid == before.value.uid && r.enabled && r.source == source && r.createdBy == createdBy
           && Resolves(r.clusterUid, ws.clusters, r.config.clusterId)
  {
    var i, r := RenameRouteShape(ws, oldId, newId, request, source, createdBy);
    RenameRouteIs(ws, oldId, newId, request, source, createdBy, newId);
    RenameRouteIs(ws, oldId, newId, request, source, createdBy, oldId);
    var after := RenameRoute(ws, oldId, newId, request, source, createdBy).0;
    FindWithout(ws.routes, RouteKey, oldId, newId);
    FindAppend(Without(ws.routes, RouteKey, oldId), RouteKey, after.routes[|after.routes| - 1], newId);
  }

  // ----- imports and replacements -----

  /** A native route configuration with a missing order made the largest and its transforms corrected or as they were. */
  ghost predicate IsConfig(stored: RouteConfig, given: RouteConfig, corrected: bool) {
    && stored.id == given.id && stored.clusterId == given.clusterId && stored.path == given.path && stored.advanced == given.advanced
    && stored.order == Some(if given.order.Some? then given.order.value else 0x7FFF_FFFF)
    && stored.transforms == (if corrected then NormalizeTransforms(given).transforms else given.transforms)
  }

  /** A known record keeps everything but the configuration. */
  ghost predicate ClusterImported(before: Option<Cluster>, after: Option<Cluster>, config: ClusterConfig, source: string,
                                  createdBy: Option<string>)
  {
    && after.Some? && after.value.config == config
    && match before
       case Some(b) => after.value == b.(config := config)
       case None => after.value.health.None? && after.value.source == source && after.value.createdBy == createdBy
  }

  /** And but for what its cluster id resolves to. */
  ghost predicate RouteImported(before: Option<Route>, after: Option<Route>, config: RouteConfig, source: string,
                                createdBy: Option<string>)
  {
    && after.Some? && IsConfig(after.value.config, config, true)
    && match before
       case Some(b) => after.value == b.(config := after.value.config, clusterUid := after.value.clusterUid)
       case None => after.value.enabled && after.value.source == source && after.value.createdBy == createdBy
  }

  /** Of the configurations imported under an id the last is stored, in the known record or in a new one. */
  lemma ImportStores(ws: WorkingSet, clusters: seq<ClusterConfig>, routes: seq<RouteConfig>, source: string,
                     createdBy: Option<string>, id: Id)
    requires Inv(ws) && (clusters != [] || routes != [])
    ensures
      var after := ImportBatch(ws, clusters, routes, source, createdBy);
      && after.version == ws.version + 1
      && (LastCluster(clusters, id).Some? ==>
            ClusterImported(FindCluster(ws.clusters, id), FindCluster(after.clusters, id), LastCluster(clusters, id).value, source, createdBy))
      && (LastRoute(routes, id).Some? ==>
            && RouteImported(FindRoute(ws.routes, id), FindRoute(after.routes, id), LastRoute(routes, id).value, source, createdBy)
            && Resolves(FindRoute(after.routes, id).value.clusterUid, after.clusters, LastRoute(routes, id).value.clusterId))
  {
    if LastCluster(clusters, id).Some? {
      ImportedClusterIs(ws, clusters, routes, source, createdBy, id);
    }
    if LastRoute(routes, id).Some? {
      ImportedRouteIs(ws, clusters, routes, source, createdBy, id);
    }
    ImportKeepsVersion(ws, clusters, routes, source, createdBy);
  }

  lemma ImportedClusterIs(ws: WorkingSet, clusters: seq<ClusterConfig>, routes: seq<RouteConfig>, source: string,
                          createdBy: Option<string>, id: Id)
    requires Inv(ws) && LastCluster(clusters, id).Some?
    ensures ClusterImported(FindCluster(ws.clusters, id), FindCluster(ImportBatch(ws, clusters, routes, source, createdBy).clusters, id),
                            LastCluster(clusters, id).value, source, createdBy)
  {
    var ws1 := ImportClusters(ws, clusters, source, createdBy);
    ImportClustersKeeps(ws, clusters, source, createdBy);
    ImportRoutesKeeps(ws1, routes, source, createdBy);
    ImportedCluster(ws, clusters, source, createdBy, id);
  }

  lemma ImportedRouteIs(ws: WorkingSet, clusters: seq<ClusterConfig>, routes: seq<RouteConfig>, source: string,
                        createdBy: Option<string>, id: Id)
    requires Inv(ws) && LastRoute(routes, id).Some?
    ensures
      var after := ImportBatch(ws, clusters, routes, source, createdBy);
      && RouteImported(FindRoute(ws.routes, id), FindRoute(after.routes, id), LastRoute(routes, id).value, source, createdBy)
      && Resolves(FindRoute(after.routes, id).value.clusterUid, after.clusters, LastRoute(routes, id).value.clusterId)
  {
    var ws1 := ImportClusters(ws, clusters, source, createdBy);
    ImportClustersKeeps(ws, clusters, source, createdBy);
    ImportRoutesKeeps(ws1, routes, source, createdBy);
    ImportedRoute(ws1, routes, source, createdBy, id);
    NormalizedLookup(ImportRoutes(ws1, routes, source, createdBy).routes, id);
    LastRouteIs(routes, id);
  }

  lemma {:induction false} LastRouteIs(routes: seq<RouteConfig>, id: Id)
    ensures LastRoute(routes, id).Some? ==> LastRoute(routes, id).value in routes && LastRoute(routes, id).value.id == id
    decreases |routes|
  {
    if routes != [] {
      LastRouteIs(routes[..|routes| - 1], id);
    }
  }

  /** After a replacement the k-th route is the k-th one given, in the record known under its id or in a new one. */
  lemma ReplaceAllStores(ws: WorkingSet, routes: seq<RouteConfig>, clusters: seq<ClusterConfig>, source: string,
                         createdBy: Option<string>, k: nat)
    requires k < |routes|
    ensures
      var after := ReplaceAll(ws, routes, clusters, source, createdBy);
      && |after.routes| == |routes| && after.version == ws.version + 1
      && IsConfig(after.routes[k].config, routes[k], false)
      && Resolves(after.routes[k].clusterUid, after.clusters, routes[k].clusterId)
      && match FindRoute(ws.routes, routes[k].id)
         case Some(b) => after.routes[k] == b.(config := after.routes[k].config, clusterUid := after.routes[k].clusterUid)
         case None => after.routes[k].enabled && after.routes[k].source == source && after.routes[k].createdBy == createdBy
  {
    ReplaceAllRestores(ws, routes, clusters, source, createdBy);
  }

  // ----- removals -----

  /** Of the cluster a removed route named: a client's destination goes, the cluster with its last one or with its last route. */
  ghost predicate Leaves(before: Cluster, after: Option<Cluster>, clientIp: Option<string>, orphaned: bool) {
    if clientIp.Some? && !Blank(clientIp.value) then
      var key := IpIsolation.GetDestinationKey(clientIp.value);
      if forall k :: k in before.config.destinations ==> k == key then after == if key in before.config.destinations then None else Some(before)
      else
        && after.Some? && after.value == before.(config := before.config.(destinations := after.value.config.destinations))
        && (forall k :: k in after.value.config.destinations <==> k != key && k in before.config.destinations)
        && (forall k :: k in after.value.config.destinations ==> after.value.config.destinations[k] == before.config.destinations[k])
    else after == if orphaned then None else Some(before)
  }

  /** The route goes, no other one does, and of the clusters at most the one it named is touched. */
  lemma RemoveRouteLeaves(ws: WorkingSet, name: Id, clientIp: Option<string>, cleanUp: bool, id: Id)
    requires Inv(ws) && RemoveRoute(ws, name, clientIp, cleanUp).1.Accepted?
    ensures
      var route, after := FindRoute(ws.routes, name), RemoveRoute(ws, name, clientIp, cleanUp).0;
      && route.Some? && FindRoute(after.routes, name).None? && (id != name ==> FindRoute(after.routes, id) == FindRoute(ws.routes, id))
      && after.version == ws.version + 1
      && (route.value.config.clusterId != Some(id) ==> FindCluster(after.clusters, id) == FindCluster(ws.clusters, id))
      && (route.value.config.clusterId == Some(id) ==>
            match FindCluster(ws.clusters, id)
            case None => FindCluster(after.clusters, id).None?
            case Some(c) =>
              Leaves(c, FindCluster(after.clusters, id), clientIp,
                     cleanUp && forall r :: r in ws.routes && r.config.id != name ==> r.config.clusterId != Some(id)))
  {
    var r := FindRoute(ws.routes, name).value;
    FindWithout(ws.routes, RouteKey, name, id);
    FindWithout(ws.routes, RouteKey, name, name);
    ClustersWithoutLeaves(ws.clusters, ws.routes, name, r.config.clusterId, clientIp, cleanUp, id);
  }

  /** What the removal of a route leaves of the clusters. */
  lemma ClustersWithoutLeaves(clusters: seq<Cluster>, routes: seq<Route>, name: Id, named: Option<Id>, clientIp: Option<string>,
                              cleanUp: bool, id: Id)
    requires Unique(clusters, ClusterKey) && Unique(routes, RouteKey)
    ensures
      var after := ClustersWithout(clusters, Without(routes, RouteKey, name), named, clientIp, cleanUp);
      if named != Some(id) then FindCluster(after, id) == FindCluster(clusters, id)
      else
        match FindCluster(clusters, id)
        case None => FindCluster(after, id).None?
        case Some(c) =>
          Leaves(c, FindCluster(after, id), clientIp,
                 cleanUp && forall r :: r in routes && r.config.id != name ==> r.config.clusterId != Some(id))
  {
    if named.Some? {
      if ForClient(clientIp) {
        DropLeaves(clusters, named.value, clientIp.value, id);
      } else {
        FindWithout(clusters, ClusterKey, named.value, id);
        StillNamed(routes, name, named.value);
      }
    }
  }

  lemma StillNamed(routes: seq<Route>, name: Id, id: Id)
    requires Unique(routes, RouteKey)
    ensures (exists x :: x in Without(routes, RouteKey, name) && Names(x, id)) <==>
            exists x :: x in routes && x.config.id != name && x.config.clusterId == Some(id)
  {
    forall x
      ensures x in Without(routes, RouteKey, name) <==> x in routes && x.config.id != name
    {
      InWithout(routes, name, x);
    }
    if x :| x in Without(routes, RouteKey, name) && Names(x, id) {
      assert x in routes && x.config.id != name && x.config.clusterId == Some(id);
    }
    if x :| x in routes && x.config.id != name && x.config.clusterId == Some(id) {
      assert x in Without(routes, RouteKey, name) && Names(x, id);
    }
  }

  lemma {:induction false} InWithout(routes: seq<Route>, name: Id, x: Route)
    ensures x in Without(routes, RouteKey, name) <==> x in routes && x.config.id != name
  {
    if routes != [] {
      InWithout(routes[1..], name, x);
      assert routes == [routes[0]] + routes[1..];
    }
  }

  lemma DropLeaves(clusters: seq<Cluster>, name: Id, clientIp: string, id: Id)
    requires Unique(clusters, ClusterKey) && !Blank(clientIp)
    ensures
      var after := DropDestination(clusters, name, clientIp);
      if id != name || FindCluster(clusters, id).None? then FindCluster(after, id) == FindCluster(clusters, id)
      else Leaves(FindCluster(clusters, id).value, FindCluster(after, id), Some(clientIp), false)
  {
    var i, key := IndexOf(clusters, ClusterKey, name), IpIsolation.GetDestinationKey(clientIp);
    FindWithout(clusters, ClusterKey, name, id);
    if i < |clusters| && key in clusters[i].config.destinations {
      var d := clusters[i].config.destinations;
      var rest := d - {key};
      assert |rest| == 0 <==> forall k :: k in d ==> k == key by {
        if |rest| == 0 {
          assert rest == map[];
        }
        assert forall k :: k in rest <==> k in d && k != key;
        if forall k :: k in d ==> k == key {
          assert rest == map[];
        }
      }
      if |rest| != 0 {
        FindUpdate(clusters, ClusterKey, i, clusters[i].(config := clusters[i].config.(destinations := rest)), id);
      }
    }
  }
}
