/** The route operations over the mutable records, each one critical section of the shared lock. */
module RouteManager {
  import opened Wrappers
  import opened KeyedList
  import opened WorkingSet
  import opened ConfigRecords
  import IpIsolation

  class RouteConfigManager {
    const state: DynamicConfigState

    constructor (state: DynamicConfigState)
      ensures this.state == state
    {
      this.state := state;
    }

    /** Adds a record, or overwrites the first one with the id. */
    method PutRecord(config: RouteConfig, source: string, createdBy: Option<string>)
      requires state.Valid()
      modifies state`routes, state`nextUid, state.routes
      ensures state.Valid() && forall r :: r in state.routes && r !in old(state.routes) ==> fresh(r)
      ensures state.View() == PutRoute(old(state.View()), config, source, createdBy, true)
    {
      var i := state.FindRoute(config.id);
      var clusterUid := state.ResolveClusterUid(config.clusterId);
      if i == |state.routes| {
        AddRecord(config, clusterUid, source, createdBy);
      } else {
        OverwriteRecord(i, config, clusterUid, source, createdBy);
      }
    }

    method AddRecord(config: RouteConfig, clusterUid: Option<Uid>, source: string, createdBy: Option<string>)
      requires state.Valid() && IndexOf(state.View().routes, RouteKey, config.id) == |state.routes|
      requires clusterUid == Resolve(state.View().clusters, config.clusterId)
      modifies state`routes, state`nextUid
      ensures state.Valid() && forall r :: r in state.routes && r !in old(state.routes) ==> fresh(r)
      ensures state.View() == PutRoute(old(state.View()), config, source, createdBy, true)
    {
      PutNewRoute(state.View(), config, source, createdBy, true);
      var _ := state.AddNewRoute(config, clusterUid, source, createdBy);
    }

    method OverwriteRecord(i: nat, config: RouteConfig, clusterUid: Option<Uid>, source: string, createdBy: Option<string>)
      requires state.Valid() && i < |state.routes| && i == IndexOf(state.View().routes, RouteKey, config.id)
      requires clusterUid == Resolve(state.View().clusters, config.clusterId)
      modifies state.routes[i]
      ensures state.View() == PutRoute(old(state.View()), config, source, createdBy, true)
    {
      PutKnownRoute(state.View(), config, source, createdBy, true, i);
      state.OverwriteRoute(i, config, clusterUid, source, createdBy);
    }

    method PutClusterOf(request: RegisterRequest, source: string, createdBy: Option<string>)
      requires state.Valid()
      modifies state`clusters, state`nextUid, state.clusters
      ensures state.Valid() && forall c :: c in state.clusters && c !in old(state.clusters) ==> fresh(c)
      ensures state.View() == RegisterCluster(old(state.View()), request, source, createdBy)
    {
      var i := state.FindCluster(request.clusterName);
      if i == |state.clusters| {
        var destKey := if Isolated(request) then IpIsolation.GetDestinationKey(request.clientIp.value) else "d1";
        var policy := if Isolated(request) then Some(IpIsolation.IP_BASED) else None;
        var _ := state.AddNewCluster(ClusterConfig(request.clusterName, map[destKey := Destination(request.address, None)], policy, None, None, 0),
                            None, source, createdBy);
      } else if !Blank(request.address) && !request.useIpIsolation {
        var dc := state.clusters[i];
        var dests := dc.config.destinations;
        dests := dests["d1" := Destination(request.address, None)];
        dc.config := dc.config.(destinations := dests);
        state.ClusterEdited(old(state.View()), i);
      }
    }

    method TryAddRoute(request: RegisterRequest, source: string, createdBy: Option<string>) returns (result: OpResult)
      requires state.Valid()
      modifies state, state.routes, state.clusters
      ensures state.Valid()
      ensures (state.View(), result) == AddRoute(old(state.View()), request, source, createdBy)
    {
      var order := if request.order.Some? then request.order.value else MAX_ORDER;
      var config := RouteConfig(request.routeName, Some(request.clusterName), Some(request.path), Some(order), request.transforms, 0);
      PutRecord(config, source, createdBy);
      PutClusterOf(request, source, createdBy);
      state.IncrementVersion();
      result := Accepted;
    }

    method TryAddRouteConfig(route: RouteConfig, source: string, createdBy: Option<string>) returns (result: OpResult)
      requires state.Valid()
      modifies state, state.routes
      ensures state.Valid()
      ensures (state.View(), result) == AddRouteConfig(old(state.View()), route, source, createdBy)
    {
      if Blank(route.id) {
        return Refused(EmptyId);
      }
      if route.clusterId.None? || Blank(route.clusterId.value) {
        return Refused(EmptyId);
      }
      PutAndCorrect(route, source, createdBy);
      state.IncrementVersion();
      result := Accepted;
    }

    method PutAndCorrect(route: RouteConfig, source: string, createdBy: Option<string>)
      requires state.Valid()
      modifies state`routes, state`nextUid, state.routes
      ensures state.Valid()
      ensures state.View() ==
              var placed := PutRoute(old(state.View()), route, source, createdBy, true);
              placed.(routes := NormalizeAll(placed.routes))
    {
      PutRecord(route, source, createdBy);
      assert forall k :: 0 <= k < |state.routes| ==> state.routes[k] in old(state.routes) || fresh(state.routes[k]);
      state.NormalizeRoutes();
    }

    method TakeDestination(id: Id, clientIp: string)
      requires state.Valid()
      modifies state`clusters, state.clusters
      ensures state.Valid() && forall c :: c in state.clusters ==> c in old(state.clusters)
      ensures state.View() == old(state.View()).(clusters := DropDestination(old(state.View()).clusters, id, clientIp))
    {
      var i := state.FindCluster(id);
      if i < |state.clusters| {
        var dc := state.clusters[i];
        var destKey := IpIsolation.GetDestinationKey(clientIp);
        if destKey in dc.config.destinations {
          var dests := dc.config.destinations - {destKey};
          if |dests| == 0 {
            state.RemoveAllClusters(id);
          } else {
            dc.config := dc.config.(destinations := dests);
            state.ClusterEdited(old(state.View()), i);
          }
        }
      }
    }

    method TryRemoveRoute(name: Id, clientIp: Option<string>, removeOrphanedCluster: bool) returns (result: OpResult)
      requires state.Valid()
      modifies state, state.clusters
      ensures state.Valid()
      ensures (state.View(), result) == RemoveRoute(old(state.View()), name, clientIp, removeOrphanedCluster)
    {
      if Blank(name) {
        return Refused(EmptyId);
      }
      var i := state.FindRoute(name);
      if i == |state.routes| {
        return Refused(NotFound);
      }
      RemoveRouteOf(name, state.routes[i].config.clusterId, clientIp, removeOrphanedCluster);
      state.IncrementVersion();
      result := Accepted;
    }

    method RemoveRouteOf(name: Id, clusterId: Option<Id>, clientIp: Option<string>, removeOrphanedCluster: bool)
      requires state.Valid()
      modifies state`routes, state`clusters, state.clusters
      ensures state.Valid()
      ensures state.View() ==
              var before, left := old(state.View()), Without(old(state.View()).routes, RouteKey, name);
              before.(routes := left, clusters := ClustersWithout(before.clusters, left, clusterId, clientIp, removeOrphanedCluster))
    {
      if ForClient(clientIp) && clusterId.Some? {
        TakeDestination(clusterId.value, clientIp.value);
        state.RemoveAllRoutes(name);
        return;
      }
      state.RemoveAllRoutes(name);
      if removeOrphanedCluster && clusterId.Some? {
        RemoveOrphan(clusterId.value);
      }
    }

    method RemoveOrphan(clusterId: Id)
      requires state.Valid()
      modifies state`clusters
      ensures state.Valid()
      ensures state.View() ==
              var before := old(state.View());
              before.(clusters := ClustersWithout(before.clusters, before.routes, Some(clusterId), None, true))
    {
      var referenced := state.IsReferenced(clusterId);
      if !referenced {
        state.RemoveAllClusters(clusterId);
      }
    }

    method TrySetRouteEnabled(id: Id, enabled: bool) returns (result: OpResult)
      requires state.Valid()
      modifies state`version, state.routes
      ensures state.Valid()
      ensures (state.View(), result) == SetRouteEnabled(old(state.View()), id, enabled)
    {
      if Blank(id) {
        return Refused(EmptyId);
      }
      var i := state.FindRoute(id);
      if i == |state.routes| {
        return Refused(NotFound);
      }
      if state.routes[i].enabled != enabled {
        state.routes[i].enabled := enabled;
      }
      state.RouteEdited(old(state.View()), i);
      state.IncrementVersion();
      result := Accepted;
    }

    method CheckRename(oldId: Id, newId: Id) returns (refusal: Option<Reason>, i: nat)
      ensures refusal == RouteRenameRefusal(state.View(), oldId, newId)
      ensures refusal.None? ==> i == IndexOf(state.View().routes, RouteKey, oldId)
    {
      if Blank(oldId) || Blank(newId) {
        return Some(EmptyId), 0;
      }
      if oldId == newId {
        return Some(SameId), 0;
      }
      i := state.FindRoute(oldId);
      if i == |state.routes| {
        return Some(NotFound), i;
      }
      var j := state.FindRoute(newId);
      refusal := if j < |state.routes| then Some(AlreadyExists) else None;
    }

    method TryRenameRoute(oldId: Id, newId: Id, request: RenameRequest, source: string, createdBy: Option<string>)
      returns (result: OpResult)
      requires state.Valid()
      modifies state
      ensures state.Valid()
      ensures (state.View(), result) == RenameRoute(old(state.View()), oldId, newId, request, source, createdBy)
    {
      var refusal, i := CheckRename(oldId, newId);
      if refusal.Some? {
        return Refused(refusal.value);
      }
      MoveTo(i, oldId, RenamedConfig(state.routes[i].config, newId, request), source, createdBy);
      state.IncrementVersion();
      result := Accepted;
    }

    /** A new record under the uid of the old one, which goes. */
    method MoveTo(i: nat, oldId: Id, config: RouteConfig, source: string, createdBy: Option<string>)
      requires state.Valid() && i < |state.routes|
      modifies state`routes
      ensures state.Valid()
      ensures state.View() ==
              var before := old(state.View());
              before.(routes := Without(before.routes, RouteKey, oldId)
                                + [Route(config, before.routes[i].uid, Resolve(before.clusters, config.clusterId), true, source, createdBy)])
    {
      var clusterUid := state.ResolveClusterUid(config.clusterId);
      var renamed := new DynamicRouteConfig(config, state.routes[i].routeUid, clusterUid, source, createdBy);
      state.RemoveAllRoutes(oldId);
      state.AddRoute(renamed);
    }
  }
}
