/** When the store agrees with the working set: after a full pass, after an incremental one, over a run. */
module PersisterTheorems {
  import opened Wrappers
  import opened KeyedList
  import opened UniqueUids
  import opened WorkingSet
  import opened WorkingSetBatches
  import opened WorkingSetInvariant
  import opened RouteDeletion
  import opened WorkingSetTheorems
  import opened RouteIdentity
  import opened Persister

  // ----- the full pass -----

  lemma {:induction false} UpsertedRoute(m: map<Id, RouteRow>, routes: seq<Route>, id: Id)
    requires Unique(routes, RouteKey)
    ensures
      var m' := UpsertRoutes(m, routes);
      match FindRoute(routes, id)
      case None => (id in m' <==> id in m) && (id in m ==> m'[id] == m[id])
      case Some(r) =>
        id in m' && m'[id] == RouteRow(SavedRouteOf(r), if id in m then m[id].createdBy else r.createdBy)
    decreases |routes|
  {
    if routes != [] {
      var init, last := routes[..|routes| - 1], routes[|routes| - 1];
      assert routes == init + [last];
      SnocNew(init, RouteKey, last);
      UpsertedRoute(m, init, id);
      FindAppend(init, RouteKey, last, id);
    }
  }

  lemma {:induction false} UpsertedCluster(m: map<Id, ClusterRow>, clusters: seq<Cluster>, id: Id)
    requires Unique(clusters, ClusterKey)
    ensures
      var m' := UpsertClusters(m, clusters);
      match FindCluster(clusters, id)
      case None => (id in m' <==> id in m) && (id in m ==> m'[id] == m[id])
      case Some(c) =>
        id in m' && m'[id] == ClusterRow(SavedClusterOf(c), if id in m then m[id].createdBy else c.createdBy)
    decreases |clusters|
  {
    if clusters != [] {
      var init, last := clusters[..|clusters| - 1], clusters[|clusters| - 1];
      assert clusters == init + [last];
      SnocNew(init, ClusterKey, last);
      UpsertedCluster(m, init, id);
      FindAppend(init, ClusterKey, last, id);
    }
  }

  lemma {:induction false} PutDestinationsIs(m: map<Id, Destinations>, clusters: seq<Cluster>, id: Id)
    requires Unique(clusters, ClusterKey)
    ensures FindCluster(clusters, id).Some? ==>
              id in PutDestinations(m, clusters) && PutDestinations(m, clusters)[id] == FindCluster(clusters, id).value.config.destinations
    decreases |clusters|
  {
    if clusters != [] {
      var init, last := clusters[..|clusters| - 1], clusters[|clusters| - 1];
      assert clusters == init + [last];
      SnocNew(init, ClusterKey, last);
      PutDestinationsIs(m, init, id);
      FindAppend(init, ClusterKey, last, id);
      assert PutDestinations(m, clusters) == PutDestinations(m, init)[last.config.id := last.config.destinations];
    }
  }

  /** A full pass that goes through makes the store agree, whatever it held before. */
  lemma FullSaveAgrees(s: Store, ws: WorkingSet)
    requires Unique(ws.routes, RouteKey) && Unique(ws.clusters, ClusterKey) && FullSave(s, ws).done
    ensures Agrees(FullSave(s, ws).store, ws)
  {
    forall id
      ensures RouteAgrees(FullSave(s, ws).store, ws, id)
    {
      UpsertedRoute(RoutesLeft(s, ws), ws.routes, id);
    }
    forall id
      ensures ClusterAgrees(FullSave(s, ws).store, ws, id)
    {
      UpsertedCluster(ClustersLeft(s, ws), ws.clusters, id);
      PutDestinationsIs(s.destinations - StaleClusters(s, ws), ws.clusters, id);
    }
  }

  lemma KeysDistinct(ws: WorkingSet)
    requires Inv(ws)
    ensures Distinct(RouteKeys(ws.routes)) && Distinct(ClusterKeys(ws.clusters))
  {
    forall i, j | 0 <= i < j < |ws.routes|
      ensures RouteKeys(ws.routes)[i].id != RouteKeys(ws.routes)[j].id && RouteKeys(ws.routes)[i].uid != RouteKeys(ws.routes)[j].uid
    {
      assert RouteKey(ws.routes[i]) != RouteKey(ws.routes[j]) && RouteUidOf(ws.routes[i]) != RouteUidOf(ws.routes[j]);
    }
    forall i, j | 0 <= i < j < |ws.clusters|
      ensures ClusterKeys(ws.clusters)[i].id != ClusterKeys(ws.clusters)[j].id
              && ClusterKeys(ws.clusters)[i].uid != ClusterKeys(ws.clusters)[j].uid
    {
      assert ClusterKey(ws.clusters[i]) != ClusterKey(ws.clusters[j]) && ClusterUidOf(ws.clusters[i]) != ClusterUidOf(ws.clusters[j]);
    }
  }

  /**
    A full pass goes through exactly when no row that is not stale blocks a record: holds
    its uid under another id that is not rewritten before it.
   */
  lemma FullSaveGoesThroughIff(s: Store, ws: WorkingSet)
    requires Inv(ws)
    ensures FullSave(s, ws).done <==>
            !Blocked(RouteUids(RoutesLeft(s, ws)), RouteKeys(ws.routes))
            && !Blocked(ClusterUids(ClustersLeft(s, ws)), ClusterKeys(ws.clusters))
  {
    KeysDistinct(ws);
    FitsIff(RouteUids(RoutesLeft(s, ws)), RouteKeys(ws.routes));
    FitsIff(ClusterUids(ClustersLeft(s, ws)), ClusterKeys(ws.clusters));
  }

  lemma RouteInKeysIff(ws: WorkingSet, id: Id, uid: Uid)
    requires Inv(ws)
    ensures Key(id, uid) in RouteKeys(ws.routes) <==> FindRoute(ws.routes, id).Some? && FindRoute(ws.routes, id).value.uid == uid
  {
    if Key(id, uid) in RouteKeys(ws.routes) {
      var i :| 0 <= i < |ws.routes| && RouteKeys(ws.routes)[i] == Key(id, uid);
      FindIs(ws.routes, RouteKey, i);
    }
    var i := IndexOf(ws.routes, RouteKey, id);
    assert i < |ws.routes| ==> RouteKeys(ws.routes)[i] == Key(id, ws.routes[i].uid);
  }

  lemma ClusterInKeysIff(ws: WorkingSet, id: Id, uid: Uid)
    requires Inv(ws)
    ensures Key(id, uid) in ClusterKeys(ws.clusters) <==>
            FindCluster(ws.clusters, id).Some? && FindCluster(ws.clusters, id).value.uid == uid
  {
    if Key(id, uid) in ClusterKeys(ws.clusters) {
      var i :| 0 <= i < |ws.clusters| && ClusterKeys(ws.clusters)[i] == Key(id, uid);
      FindIs(ws.clusters, ClusterKey, i);
    }
    var i := IndexOf(ws.clusters, ClusterKey, id);
    assert i < |ws.clusters| ==> ClusterKeys(ws.clusters)[i] == Key(id, ws.clusters[i].uid);
  }

  /** Whatever the store holds, a full pass leaves it in agreement exactly when it goes through. */
  lemma FullSaveAgreesIff(s: Store, ws: WorkingSet)
    requires Inv(ws)
    ensures Agrees(FullSave(s, ws).store, ws) <==> FullSave(s, ws).done
  {
    var pass, routes, clusters := FullSave(s, ws), RoutesLeft(s, ws), ClustersLeft(s, ws);
    KeysDistinct(ws);
    if pass.done {
      FullSaveAgrees(s, ws);
    } else if !Fits(RouteUids(routes), RouteKeys(ws.routes)) {
      var id := BlockedMismatches(RouteUids(routes), RouteKeys(ws.routes));
      RouteInKeysIff(ws, id, routes[id].saved.uid);
      assert !RouteAgrees(pass.store, ws, id);
    } else {
      var id := BlockedMismatches(ClusterUids(clusters), ClusterKeys(ws.clusters));
      ClusterInKeysIff(ws, id, clusters[id].saved.uid);
      assert !ClusterAgrees(pass.store, ws, id);
    }
  }

  /** Rows whose uids are those of the records of their ids block nothing. */
  lemma MatchingRowsGoThrough(s: Store, ws: WorkingSet)
    requires Inv(ws)
    requires forall id :: id in s.routes && FindRoute(ws.routes, id).Some? ==> FindRoute(ws.routes, id).value.uid == s.routes[id].saved.uid
    requires forall id :: id in s.clusters && FindCluster(ws.clusters, id).Some? ==>
               FindCluster(ws.clusters, id).value.uid == s.clusters[id].saved.uid
    ensures FullSave(s, ws).done
  {
    KeysDistinct(ws);
    forall id | id in RouteUids(RoutesLeft(s, ws))
      ensures Key(id, RouteUids(RoutesLeft(s, ws))[id]) in RouteKeys(ws.routes)
    {
      RouteInKeysIff(ws, id, s.routes[id].saved.uid);
    }
    MatchingFits(RouteUids(RoutesLeft(s, ws)), RouteKeys(ws.routes));
    forall id | id in ClusterUids(ClustersLeft(s, ws))
      ensures Key(id, ClusterUids(ClustersLeft(s, ws))[id]) in ClusterKeys(ws.clusters)
    {
      ClusterInKeysIff(ws, id, s.clusters[id].saved.uid);
    }
    MatchingFits(ClusterUids(ClustersLeft(s, ws)), ClusterKeys(ws.clusters));
  }

  /** A full pass that is refused leaves tables on which it is refused again. */
  lemma RefusedSaveIsRefusedAgain(s: Store, ws: WorkingSet)
    requires Inv(ws) && !FullSave(s, ws).done
    ensures !FullSave(FullSave(s, ws).store, ws).done
  {
    var once := FullSave(s, ws).store;
    if Fits(RouteUids(RoutesLeft(s, ws)), RouteKeys(ws.routes)) {
      assert ClustersLeft(once, ws) == once.clusters == ClustersLeft(s, ws);
    } else {
      assert RoutesLeft(once, ws) == once.routes == RoutesLeft(s, ws);
    }
  }

  /**
    What a refused full pass leaves: when a route is refused, the stale routes are gone and
    nothing else is changed; when a cluster is, all routes are saved and the stale clusters
    and their destinations gone as well, and no other cluster is changed.
   */
  lemma RefusedSaveLeaves(s: Store, ws: WorkingSet, id: Id)
    requires Inv(ws) && !FullSave(s, ws).done
    ensures
      var left := FullSave(s, ws).store;
      && (id in left.routes <==> if Blocked(RouteUids(RoutesLeft(s, ws)), RouteKeys(ws.routes)) then id in s.routes && FindRoute(ws.routes, id).Some?
                                 else FindRoute(ws.routes, id).Some?)
      && (Blocked(RouteUids(RoutesLeft(s, ws)), RouteKeys(ws.routes)) ==>
            && (id in left.routes ==> left.routes[id] == s.routes[id])
            && left.clusters == s.clusters && left.destinations == s.destinations)
      && (!Blocked(RouteUids(RoutesLeft(s, ws)), RouteKeys(ws.routes)) ==>
            && RouteAgrees(left, ws, id)
            && (id in left.clusters <==> id in s.clusters && FindCluster(ws.clusters, id).Some?)
            && (id in left.clusters ==> left.clusters[id] == s.clusters[id])
            && (id in left.destinations <==> id in s.destinations && (id in s.clusters ==> FindCluster(ws.clusters, id).Some?))
            && (id in left.destinations ==> left.destinations[id] == s.destinations[id]))
  {
    KeysDistinct(ws);
    FitsIff(RouteUids(RoutesLeft(s, ws)), RouteKeys(ws.routes));
    UpsertedRoute(RoutesLeft(s, ws), ws.routes, id);
    assert id in RouteIds(ws.routes) <==> FindRoute(ws.routes, id).Some?;
    assert id in ClusterIds(ws.clusters) <==> FindCluster(ws.clusters, id).Some?;
  }

  /** From a store in agreement a full pass after any safe operation goes through. */
  lemma FullSaveGoes(s: Store, ws: WorkingSet, op: Op)
    requires Inv(ws) && Safe(ws, op) && Agrees(s, ws)
    ensures FullSave(s, Apply(ws, op)).done && Agrees(FullSave(s, Apply(ws, op)).store, Apply(ws, op))
  {
    var after := Apply(ws, op);
    KeepsInvariantIff(ws, op);
    forall id | id in s.routes && FindRoute(after.routes, id).Some?
      ensures FindRoute(after.routes, id).value.uid == s.routes[id].saved.uid
    {
      assert RouteAgrees(s, ws, id);
      RoutesKeepUid(ws, op, id);
    }
    forall id | id in s.clusters && FindCluster(after.clusters, id).Some?
      ensures FindCluster(after.clusters, id).value.uid == s.clusters[id].saved.uid
    {
      assert ClusterAgrees(s, ws, id);
      ClustersKeepUid(ws, op, id);
    }
    MatchingRowsGoThrough(s, after);
    FullSaveAgrees(s, after);
  }

  lemma ClustersKeepUid(ws: WorkingSet, op: Op, id: Id)
    requires Inv(ws) && FindCluster(ws.clusters, id).Some? && FindCluster(Apply(ws, op).clusters, id).Some?
    ensures FindCluster(Apply(ws, op).clusters, id).value.uid == FindCluster(ws.clusters, id).value.uid
  {
    SurvivorsKeepUid(ws, op, id);
  }

  // ----- the incremental pass -----

  /** The route and the cluster an incremental pass writes. */
  function TouchedRoute(name: string, target: Id): Option<Id> {
    if SavesRoute(name) then Some(target) else None
  }

  function TouchedCluster(ws: WorkingSet, name: string, target: Id): Option<Id> {
    if !SavesRoute(name) then Some(target)
    else match FindRoute(ws.routes, target)
      case None => None
      case Some(r) => if r.config.clusterId == Some("") then None else r.config.clusterId
  }

  function KnownTouchedCluster(ws: WorkingSet, name: string, target: Id): Option<Id> {
    var touched := TouchedCluster(ws, name, target);
    if touched.Some? && FindCluster(ws.clusters, touched.value).Some? then touched else None
  }

  ghost predicate AgreesBut(s: Store, ws: WorkingSet, route: Option<Id>, cluster: Option<Id>) {
    && (forall id :: Some(id) != route ==> RouteAgrees(s, ws, id))
    && (forall id :: Some(id) != cluster ==> ClusterAgrees(s, ws, id))
  }

  lemma SaveClusterTouches(s: Store, ws: WorkingSet, c: Cluster, id: Id)
    requires FindCluster(ws.clusters, c.config.id) == Some(c) && SaveCluster(s, c).done
    ensures RouteAgrees(SaveCluster(s, c).store, ws, id) <==> RouteAgrees(s, ws, id)
    ensures ClusterAgrees(SaveCluster(s, c).store, ws, id) <==> id == c.config.id || ClusterAgrees(s, ws, id)
  {
  }

  lemma SaveRouteTouches(s: Store, ws: WorkingSet, r: Route, id: Id)
    requires FindRoute(ws.routes, r.config.id) == Some(r)
    ensures
      var s' := s.(routes := UpsertRoute(s.routes, r));
      && (RouteAgrees(s', ws, id) <==> id == r.config.id || RouteAgrees(s, ws, id))
      && (ClusterAgrees(s', ws, id) <==> ClusterAgrees(s, ws, id))
  {
  }

  /** A row that makes a write be refused does not agree, and is not the one to be written. */
  lemma HeldRouteDisagrees(s: Store, ws: WorkingSet, r: Route) returns (id: Id)
    requires Inv(ws) && FindRoute(ws.routes, r.config.id) == Some(r) && !Free(RouteUids(s.routes), RouteKeyOf(r))
    ensures id != r.config.id && !RouteAgrees(s, ws, id)
  {
    id :| id in s.routes && id != r.config.id && s.routes[id].saved.uid == r.uid;
    if FindRoute(ws.routes, id).Some? {
      FindMember(ws.routes, RouteUidOf, r);
      FindMember(ws.routes, RouteUidOf, FindRoute(ws.routes, id).value);
    }
  }

  lemma HeldClusterDisagrees(s: Store, ws: WorkingSet, c: Cluster) returns (id: Id)
    requires Inv(ws) && FindCluster(ws.clusters, c.config.id) == Some(c) && !SaveCluster(s, c).done
    ensures id != c.config.id && !ClusterAgrees(s, ws, id)
  {
    id :| id in s.clusters && id != c.config.id && s.clusters[id].saved.uid == c.uid;
    if FindCluster(ws.clusters, id).Some? {
      FindMember(ws.clusters, ClusterUidOf, c);
      FindMember(ws.clusters, ClusterUidOf, FindCluster(ws.clusters, id).value);
    }
  }

  /** Saving one cluster makes the store agree exactly when it agreed everywhere else; then it goes through. */
  lemma SaveClusterAgreesIff(s: Store, ws: WorkingSet, c: Cluster)
    requires Inv(ws) && FindCluster(ws.clusters, c.config.id) == Some(c)
    ensures Agrees(SaveCluster(s, c).store, ws) <==> AgreesBut(s, ws, None, Some(c.config.id))
    ensures AgreesBut(s, ws, None, Some(c.config.id)) ==> SaveCluster(s, c).done
  {
    if SaveCluster(s, c).done {
      forall id
        ensures RouteAgrees(SaveCluster(s, c).store, ws, id) <==> RouteAgrees(s, ws, id)
        ensures ClusterAgrees(SaveCluster(s, c).store, ws, id) <==> id == c.config.id || ClusterAgrees(s, ws, id)
      {
        SaveClusterTouches(s, ws, c, id);
      }
    } else {
      var id := HeldClusterDisagrees(s, ws, c);
    }
  }

  lemma SaveRouteAgreesIff(s: Store, ws: WorkingSet, r: Route)
    requires Inv(ws) && FindRoute(ws.routes, r.config.id) == Some(r)
    ensures
      var cluster := match ClusterOfRoute(ws, r) case None => None case Some(c) => Some(c.config.id);
      && (Agrees(SaveRoute(s, ws, r).store, ws) <==> AgreesBut(s, ws, Some(r.config.id), cluster))
      && (AgreesBut(s, ws, Some(r.config.id), cluster) ==> SaveRoute(s, ws, r).done)
  {
    if !Free(RouteUids(s.routes), RouteKeyOf(r)) {
      var id := HeldRouteDisagrees(s, ws, r);
    } else {
      var s1 := s.(routes := UpsertRoute(s.routes, r));
      forall id
        ensures RouteAgrees(s1, ws, id) <==> id == r.config.id || RouteAgrees(s, ws, id)
        ensures ClusterAgrees(s1, ws, id) <==> ClusterAgrees(s, ws, id)
      {
        SaveRouteTouches(s, ws, r, id);
      }
      if ClusterOfRoute(ws, r).Some? {
        SaveClusterAgreesIff(s1, ws, ClusterOfRoute(ws, r).value);
      }
    }
  }

  /**
    An incremental pass makes the store agree exactly when it already agreed everywhere but
    on the target route and its cluster, or on the target cluster, and then it goes through.
    In particular it does not make up for an earlier pass that failed.
   */
  lemma IncrementalAgreesIff(s: Store, ws: WorkingSet, name: string, target: Id)
    requires Inv(ws) && IncrementalSave(s, ws, name, Some(target)).Some?
    ensures
      var pass := IncrementalSave(s, ws, name, Some(target)).value;
      var elsewhere := AgreesBut(s, ws, TouchedRoute(name, target), KnownTouchedCluster(ws, name, target));
      (Agrees(pass.store, ws) <==> elsewhere) && (elsewhere ==> pass.done)
  {
    if SavesRoute(name) {
      SaveRouteAgreesIff(s, ws, FindRoute(ws.routes, target).value);
    } else {
      SaveClusterAgreesIff(s, ws, FindCluster(ws.clusters, target).value);
    }
  }

  /** A cluster is saved exactly when no row under another id has its uid, and otherwise nothing is written. */
  lemma ClusterSaveIs(s: Store, c: Cluster)
    ensures
      var pass := SaveCluster(s, c);
      && (pass.done <==> forall id :: id in s.clusters && id != c.config.id ==> s.clusters[id].saved.uid != c.uid)
      && (!pass.done ==> pass.store == s)
  {
    var uids := ClusterUids(s.clusters);
    assert forall id :: id in s.clusters <==> id in uids;
    assert forall id :: id in s.clusters ==> uids[id] == s.clusters[id].saved.uid;
  }

  /**
    A route is saved with the cluster it names, if that is there, exactly when no row under
    another id has its uid, or the cluster's; a refusal of the cluster leaves the route written.
   */
  lemma RouteSaveIs(s: Store, ws: WorkingSet, r: Route)
    ensures
      var pass := SaveRoute(s, ws, r);
      var named := if r.config.clusterId.None? || r.config.clusterId.value == "" then None
                   else FindCluster(ws.clusters, r.config.clusterId.value);
      var free := forall id :: id in s.routes && id != r.config.id ==> s.routes[id].saved.uid != r.uid;
      && (pass.done <==> free && (named.Some? ==> SaveCluster(s, named.value).done))
      && (!free ==> pass.store == s)
      && (free ==> r.config.id in pass.store.routes && pass.store.routes[r.config.id].saved == SavedRouteOf(r))
      && (!pass.done ==> pass.store.clusters == s.clusters && pass.store.destinations == s.destinations)
  {
    var uids := RouteUids(s.routes);
    assert forall id :: id in s.routes <==> id in uids;
    assert forall id :: id in s.routes ==> uids[id] == s.routes[id].saved.uid;
  }

  // ----- saving after an operation -----

  /** The name and the target an operation is saved under. */
  function SaveKey(op: Op): (string, Option<Id>) {
    match op
    case OpAddClusterConfig(config, _, _) => ("AddCluster", Some(config.id))
    case OpAddCluster(id, _, _, _, _, _, _) => ("AddCluster", Some(id))
    case OpCreateCluster(id, _, _, _, _, _) => ("CreateCluster", Some(id))
    case OpUpdateCluster(id, _, _, _) => ("UpdateCluster", Some(id))
    case OpRemoveCluster(id) => ("RemoveCluster", Some(id))
    case OpRenameCluster(oldId, _, _, _, _, _, _) => ("UpdateCluster", Some(oldId))
    case OpAddRoute(request, _, _) => ("AddOrUpdateRoute", Some(request.routeName))
    case OpAddRouteConfig(route, _, _) => ("AddOrUpdateRoute", Some(route.id))
    case OpRemoveRoute(id, _, _) => ("RemoveRoute", Some(id))
    case OpSetRouteEnabled(id, _) => ("SetRouteEnabled", Some(id))
    case OpRenameRoute(oldId, _, _, _, _) => ("UpdateRoute", Some(oldId))
    case OpImportBatch(_, _, _, _) => ("ImportBatchAsync", Some("full config"))
    case OpBatchDeleteClusters(_) => ("BatchDeleteClusters", Some("full config"))
    case OpBatchDeleteRoutes(_, _) => ("BatchDeleteRoutes", Some("full config"))
    case OpBatchSetRoutesEnabled(_, _) => ("BatchSetRoutesEnabled", Some("full config"))
    case OpReplaceAll(_, _, _, _) => ("ReplaceAllConfig", Some("full config"))
  }

  /** The store after an operation and its save; one that changed nothing is not saved. */
  function SaveAfter(s: Store, ws: WorkingSet, op: Op): Store {
    var after := Apply(ws, op);
    if after.version == ws.version then s else Save(s, after, SaveKey(op).0, SaveKey(op).1).store
  }

  /** Whether the save after an operation goes through. */
  predicate SaveGoes(s: Store, ws: WorkingSet, op: Op) {
    Apply(ws, op).version == ws.version || Save(s, Apply(ws, op), SaveKey(op).0, SaveKey(op).1).done
  }

  /** Whether a registration creates its cluster or gives it another address under the plain key. */
  predicate RegistrationChanges(clusters: seq<Cluster>, request: RegisterRequest) {
    match FindCluster(clusters, request.clusterName)
    case None => true
    case Some(c) =>
      !Blank(request.address) && !request.useIpIsolation
      && !("d1" in c.config.destinations && c.config.destinations["d1"] == Destination(request.address, None))
  }

  /**
    What keeps the store in agreement: a registration must not create or change a cluster
    with the empty id, which the incremental pass skips, and adding a route configuration
    must not correct the transforms of another route, which it does not save.
   */
  ghost predicate SaveSafe(ws: WorkingSet, op: Op) {
    match op
    case OpAddRoute(request, _, _) =>
      Blank(request.routeName) || request.clusterName != "" || !RegistrationChanges(ws.clusters, request)
    case OpAddRouteConfig(route, _, _) =>
      forall r :: r in ws.routes && r.config.id != route.id ==> NormalizeTransforms(r.config) == r.config
    case _ => true
  }

  lemma UnsavedUnchanged(ws: WorkingSet, op: Op)
    requires Apply(ws, op).version == ws.version
    ensures Apply(ws, op) == ws
  {
    if op.OpImportBatch? {
      ImportKeepsVersion(ws, op.clusters, op.routes, op.source, op.createdBy);
    }
  }

  predicate PutsCluster(op: Op) {
    op.OpAddClusterConfig? || op.OpAddCluster? || op.OpCreateCluster? || op.OpUpdateCluster?
  }

  /** Putting a cluster changes no other one, and no route. */
  lemma PutChangesOnlyTarget(ws: WorkingSet, op: Op, id: Id)
    requires Inv(ws) && PutsCluster(op) && Perform(ws, op).1.Accepted? && Some(id) != SaveKey(op).1
    ensures FindCluster(Apply(ws, op).clusters, id) == FindCluster(ws.clusters, id) && Apply(ws, op).routes == ws.routes
    ensures FindCluster(Apply(ws, op).clusters, SaveKey(op).1.value).Some?
  {
    var target, after := SaveKey(op).1.value, Apply(ws, op);
    var i := IndexOf(ws.clusters, ClusterKey, target);
    if i < |ws.clusters| {
      FindUpdate(ws.clusters, ClusterKey, i, after.clusters[i], id);
      FindUpdate(ws.clusters, ClusterKey, i, after.clusters[i], target);
    } else {
      FindAppend(ws.clusters, ClusterKey, after.clusters[i], id);
      FindAppend(ws.clusters, ClusterKey, after.clusters[i], target);
    }
  }

  /** Elsewhere the store already has what putting a cluster leaves. */
  lemma PutClusterElsewhere(s: Store, ws: WorkingSet, op: Op)
    requires Inv(ws) && Agrees(s, ws) && PutsCluster(op) && Perform(ws, op).1.Accepted?
    ensures AgreesBut(s, Apply(ws, op), None, SaveKey(op).1)
    ensures FindCluster(Apply(ws, op).clusters, SaveKey(op).1.value).Some?
  {
    var after, target := Apply(ws, op), SaveKey(op).1.value;
    PutChangesOnlyTarget(ws, op, target + "x");
    forall id | id != target
      ensures ClusterAgrees(s, after, id)
    {
      PutChangesOnlyTarget(ws, op, id);
      assert ClusterAgrees(s, ws, id);
    }
    forall id
      ensures RouteAgrees(s, after, id)
    {
      assert RouteAgrees(s, ws, id);
    }
  }

  lemma PutNames(op: Op)
    requires PutsCluster(op)
    ensures SavesCluster(SaveKey(op).0) && !SavesRoute(SaveKey(op).0) && SaveKey(op).1.Some?
  {
    assert "AddCluster"[3] == 'C' && "CreateCluster"[0] == 'C' && "UpdateCluster"[0] == 'U' && "AddOrUpdateRoute"[3] == 'O';
  }

  lemma PutClusterAgrees(s: Store, ws: WorkingSet, op: Op)
    requires Inv(ws) && Agrees(s, ws) && PutsCluster(op) && Perform(ws, op).1.Accepted?
    ensures Agrees(SaveAfter(s, ws, op), Apply(ws, op)) && SaveGoes(s, ws, op)
  {
    var target := SaveKey(op).1.value;
    PutNames(op);
    PutClusterElsewhere(s, ws, op);
    PutCommits(ws, op);
    ClusterOpKeeps(ws, op);
    if Blank(target) {
      FullSaveGoes(s, ws, op);
    } else {
      SavesTarget(s, Apply(ws, op), SaveKey(op).0, target);
    }
  }

  lemma PutCommits(ws: WorkingSet, op: Op)
    requires PutsCluster(op) && Perform(ws, op).1.Accepted?
    ensures Apply(ws, op).version == ws.version + 1
  {
  }

  lemma SavesTarget(s: Store, ws: WorkingSet, name: string, target: Id)
    requires Inv(ws)
    requires SavesCluster(name) && !SavesRoute(name) && !Blank(target) && FindCluster(ws.clusters, target).Some?
    requires AgreesBut(s, ws, None, Some(target))
    ensures IncrementalSave(s, ws, name, Some(target)).Some? && IncrementalSave(s, ws, name, Some(target)).value.done
    ensures Agrees(IncrementalSave(s, ws, name, Some(target)).value.store, ws)
  {
    IncrementalAgreesIff(s, ws, name, target);
  }

  /** Putting a route changes no other one. */
  lemma PutRouteLookup(ws: WorkingSet, config: RouteConfig, source: string, createdBy: Option<string>, id: Id)
    requires Inv(ws)
    ensures
      var after := PutRoute(ws, config, source, createdBy, true);
      && (id != config.id ==> FindRoute(after.routes, id) == FindRoute(ws.routes, id))
      && FindRoute(after.routes, config.id).Some? && FindRoute(after.routes, config.id).value.config == config
  {
    var i, after := IndexOf(ws.routes, RouteKey, config.id), PutRoute(ws, config, source, createdBy, true);
    if i < |ws.routes| {
      FindUpdate(ws.routes, RouteKey, i, after.routes[i], id);
      FindUpdate(ws.routes, RouteKey, i, after.routes[i], config.id);
    } else {
      FindAppend(ws.routes, RouteKey, after.routes[i], id);
      FindAppend(ws.routes, RouteKey, after.routes[i], config.id);
    }
  }

  lemma RegisterClusterLookup(ws: WorkingSet, request: RegisterRequest, source: string, createdBy: Option<string>, id: Id)
    requires Inv(ws)
    ensures
      var after := RegisterCluster(ws, request, source, createdBy);
      && after.routes == ws.routes
      && (id != request.clusterName ==> FindCluster(after.clusters, id) == FindCluster(ws.clusters, id))
      && FindCluster(after.clusters, request.clusterName).Some?
      && (FindCluster(ws.clusters, request.clusterName).Some? ==>
            FindCluster(after.clusters, request.clusterName).value.(config := FindCluster(ws.clusters, request.clusterName).value.config)
            == FindCluster(ws.clusters, request.clusterName).value)
  {
    var i, after := IndexOf(ws.clusters, ClusterKey, request.clusterName), RegisterCluster(ws, request, source, createdBy);
    if i == |ws.clusters| {
      FindAppend(ws.clusters, ClusterKey, after.clusters[i], id);
      FindAppend(ws.clusters, ClusterKey, after.clusters[i], request.clusterName);
    } else if after.clusters != ws.clusters {
      FindUpdate(ws.clusters, ClusterKey, i, after.clusters[i], id);
      FindUpdate(ws.clusters, ClusterKey, i, after.clusters[i], request.clusterName);
    }
  }

  /** What a registration leaves elsewhere is what the store already has. */
  lemma AddRouteElsewhere(s: Store, ws: WorkingSet, op: Op, id: Id)
    requires Inv(ws) && Agrees(s, ws) && op.OpAddRoute?
    ensures id != op.request.routeName ==> RouteAgrees(s, Apply(ws, op), id)
    ensures id != op.request.clusterName ==> ClusterAgrees(s, Apply(ws, op), id)
    ensures FindRoute(Apply(ws, op).routes, op.request.routeName).Some?
    ensures FindRoute(Apply(ws, op).routes, op.request.routeName).value.config.clusterId == Some(op.request.clusterName)
    ensures FindCluster(Apply(ws, op).clusters, op.request.clusterName).Some?
  {
    var request := op.request;
    var placed := PutRoute(ws, RequestedRoute(request), op.source, op.createdBy, true);
    PutRouteKeeps(ws, RequestedRoute(request), op.source, op.createdBy, true);
    PutRouteLookup(ws, RequestedRoute(request), op.source, op.createdBy, id);
    RegisterClusterLookup(placed, request, op.source, op.createdBy, id);
    assert RouteAgrees(s, ws, id) && ClusterAgrees(s, ws, id);
  }

  lemma RegistrationChangesIff(ws: WorkingSet, request: RegisterRequest, source: string, createdBy: Option<string>)
    requires Inv(ws)
    ensures
      var id, after := request.clusterName, RegisterCluster(ws, request, source, createdBy).clusters;
      FindCluster(after, id) == FindCluster(ws.clusters, id) <==> !RegistrationChanges(ws.clusters, request)
  {
    var i, after := IndexOf(ws.clusters, ClusterKey, request.clusterName), RegisterCluster(ws, request, source, createdBy).clusters;
    RegisterClusterLookup(ws, request, source, createdBy, request.clusterName);
    if i < |ws.clusters| && !Blank(request.address) && !request.useIpIsolation {
      var c := ws.clusters[i];
      FindUpdate(ws.clusters, ClusterKey, i, after[i], request.clusterName);
      assert after[i].config.destinations["d1"] == Destination(request.address, None);
      if !RegistrationChanges(ws.clusters, request) {
        assert after[i].config.destinations == c.config.destinations;
      }
    }
  }

  /** The registered cluster agrees without being saved exactly when the registration does not change it. */
  lemma RegisteredAgreesIff(s: Store, ws: WorkingSet, op: Op)
    requires Inv(ws) && Agrees(s, ws) && op.OpAddRoute?
    ensures ClusterAgrees(s, Apply(ws, op), op.request.clusterName) <==> !RegistrationChanges(ws.clusters, op.request)
  {
    var request := op.request;
    var placed := PutRoute(ws, RequestedRoute(request), op.source, op.createdBy, true);
    PutRouteKeeps(ws, RequestedRoute(request), op.source, op.createdBy, true);
    RegisterClusterLookup(placed, request, op.source, op.createdBy, request.clusterName);
    RegistrationChangesIff(placed, request, op.source, op.createdBy);
    assert ClusterAgrees(s, ws, request.clusterName);
  }

  lemma AddRouteAgreesIff(s: Store, ws: WorkingSet, op: Op)
    requires Inv(ws) && Agrees(s, ws) && op.OpAddRoute?
    ensures Agrees(SaveAfter(s, ws, op), Apply(ws, op)) <==> SaveSafe(ws, op)
  {
    var request, after := op.request, Apply(ws, op);
    assert after.version == ws.version + 1;
    AddRouteKeeps(ws, request, op.source, op.createdBy);
    if Blank(request.routeName) {
      FullSaveGoes(s, ws, op);
    } else {
      AddRouteElsewhere(s, ws, op, "");
      AddedElsewhereIff(s, ws, op);
      IncrementalAgreesIff(s, after, "AddOrUpdateRoute", request.routeName);
    }
  }

  /** What the incremental pass leaves out agrees exactly when the registration is save-safe. */
  lemma AddedElsewhereIff(s: Store, ws: WorkingSet, op: Op)
    requires Inv(ws) && Agrees(s, ws) && op.OpAddRoute? && !Blank(op.request.routeName)
    ensures
      var (name, after) := (op.request.routeName, Apply(ws, op));
      AgreesBut(s, after, Some(name), KnownTouchedCluster(after, "AddOrUpdateRoute", name)) <==> SaveSafe(ws, op)
  {
    var request, after := op.request, Apply(ws, op);
    AddRouteElsewhere(s, ws, op, "");
    RegisteredAgreesIff(s, ws, op);
    forall id
      ensures id != request.routeName ==> RouteAgrees(s, after, id)
      ensures id != request.clusterName ==> ClusterAgrees(s, after, id)
    {
      AddRouteElsewhere(s, ws, op, id);
    }
  }

  lemma NormalizedSaved(r: Route)
    ensures SavedRouteOf(r.(config := NormalizeTransforms(r.config))) == SavedRouteOf(r) <==> NormalizeTransforms(r.config) == r.config
  {
    var n := NormalizeTransforms(r.config);
    assert SavedRouteOf(r.(config := n)).config.transforms == n.transforms;
    assert SavedRouteOf(r).config.transforms == r.config.transforms;
    assert n == r.config.(transforms := n.transforms);
  }

  lemma CorrectedLookup(ws: WorkingSet, config: RouteConfig, source: string, createdBy: Option<string>, id: Id)
    requires Inv(ws)
    ensures
      var after := NormalizeAll(PutRoute(ws, config, source, createdBy, true).routes);
      && FindRoute(after, config.id).Some?
      && (id != config.id ==> FindRoute(after, id) == FindRoute(NormalizeAll(ws.routes), id))
  {
    var placed := PutRoute(ws, config, source, createdBy, true).routes;
    PutRouteLookup(ws, config, source, createdBy, id);
    NormalizedLookup(placed, id);
    NormalizedLookup(placed, config.id);
    NormalizedLookup(ws.routes, id);
  }

  lemma AddRouteConfigLookup(ws: WorkingSet, op: Op, id: Id)
    requires Inv(ws) && op.OpAddRouteConfig? && Perform(ws, op).1.Accepted?
    ensures
      var after := Apply(ws, op);
      && FindRoute(after.routes, op.route.id).Some?
      && (id != op.route.id ==> FindRoute(after.routes, id) == FindRoute(NormalizeAll(ws.routes), id))
  {
    CorrectedLookup(ws, op.route, op.source, op.createdBy, id);
  }

  /** Another route agrees unsaved exactly when the correction leaves it as it is. */
  lemma CorrectedAgreesIff(s: Store, ws: WorkingSet, op: Op, id: Id)
    requires Inv(ws) && Agrees(s, ws) && op.OpAddRouteConfig? && Perform(ws, op).1.Accepted? && id != op.route.id
    ensures
      var r := FindRoute(ws.routes, id);
      RouteAgrees(s, Apply(ws, op), id) <==> r.None? || NormalizeTransforms(r.value.config) == r.value.config
  {
    AddRouteConfigLookup(ws, op, id);
    NormalizedLookup(ws.routes, id);
    assert RouteAgrees(s, ws, id);
    if FindRoute(ws.routes, id).Some? {
      NormalizedSaved(FindRoute(ws.routes, id).value);
    }
  }

  lemma AddRouteConfigElsewhereIff(s: Store, ws: WorkingSet, op: Op)
    requires Inv(ws) && Agrees(s, ws) && op.OpAddRouteConfig? && Perform(ws, op).1.Accepted?
    ensures (forall id :: id != op.route.id ==> RouteAgrees(s, Apply(ws, op), id)) <==> SaveSafe(ws, op)
  {
    forall id | id != op.route.id
      ensures RouteAgrees(s, Apply(ws, op), id) <==>
              FindRoute(ws.routes, id).None? || NormalizeTransforms(FindRoute(ws.routes, id).value.config) == FindRoute(ws.routes, id).value.config
    {
      CorrectedAgreesIff(s, ws, op, id);
    }
    forall r | r in ws.routes
      ensures FindRoute(ws.routes, r.config.id) == Some(r)
    {
      FindMember(ws.routes, RouteKey, r);
    }
  }

  lemma AddRouteConfigAgreesIff(s: Store, ws: WorkingSet, op: Op)
    requires Inv(ws) && Agrees(s, ws) && op.OpAddRouteConfig? && Perform(ws, op).1.Accepted?
    ensures Agrees(SaveAfter(s, ws, op), Apply(ws, op)) <==> SaveSafe(ws, op)
  {
    var after, target := Apply(ws, op), op.route.id;
    AddRouteConfigLookup(ws, op, target);
    AddRouteConfigElsewhereIff(s, ws, op);
    AddRouteConfigKeeps(ws, op.route, op.source, op.createdBy);
    assert forall id :: ClusterAgrees(s, after, id) == ClusterAgrees(s, ws, id);
    IncrementalAgreesIff(s, after, "AddOrUpdateRoute", target);
  }

  /** The other operations are saved in full; a rename because its target is gone by then. */
  lemma NotIncremental(s: Store, ws: WorkingSet, op: Op)
    requires Inv(ws) && Perform(ws, op).1.Accepted? && !PutsCluster(op) && !op.OpAddRoute? && !op.OpAddRouteConfig?
    ensures IncrementalSave(s, Apply(ws, op), SaveKey(op).0, SaveKey(op).1).None?
  {
    var name := SaveKey(op).0;
    if op.OpRenameCluster? {
      RenameLookup(ws, op.oldId, op.newId, op.destinations, op.policy, op.health, op.source, op.createdBy);
    } else {
      assert !SavesRoute(name) && !SavesCluster(name) by {
        NamesDiffer(op);
      }
    }
  }

  /**
    Exactly putting a cluster, registering a route and adding a route configuration are
    saved incrementally, unless the target's id is blank; everything else is saved in full.
   */
  lemma SavedIncrementallyIff(s: Store, ws: WorkingSet, op: Op)
    requires Inv(ws) && Perform(ws, op).1.Accepted?
    ensures
      IncrementalSave(s, Apply(ws, op), SaveKey(op).0, SaveKey(op).1).Some? <==>
      match op
      case OpAddClusterConfig(config, _, _) => true
      case OpAddCluster(_, _, _, _, _, _, _) => true
      case OpCreateCluster(id, _, _, _, _, _) => !Blank(id)
      case OpUpdateCluster(_, _, _, _) => true
      case OpAddRoute(request, _, _) => !Blank(request.routeName)
      case OpAddRouteConfig(_, _, _) => true
      case _ => false
  {
    if PutsCluster(op) {
      PutNames(op);
      PutChangesOnlyTarget(ws, op, SaveKey(op).1.value + "x");
    } else if op.OpAddRoute? {
      RegistrationRemovesNothing(ws, op, op.request.routeName);
    } else if op.OpAddRouteConfig? {
      AddRouteConfigLookup(ws, op, op.route.id);
    } else {
      NotIncremental(s, ws, op);
    }
  }

  lemma NamesDiffer(op: Op)
    requires !PutsCluster(op) && !op.OpAddRoute? && !op.OpAddRouteConfig? && !op.OpRenameCluster?
    ensures !SavesRoute(SaveKey(op).0) && !SavesCluster(SaveKey(op).0)
  {
    var name := SaveKey(op).0;
    assert name[0] in ['R', 'S', 'U', 'I', 'B'];
    assert name[0] == 'U' ==> name == "UpdateRoute" && name[6] == 'R';
    assert "UpdateCluster"[6] == 'C' && "UpdateClusterCircuitBreaker"[6] == 'C' && "AddOrUpdateRoute"[0] == 'A';
    assert "AddCluster"[0] == 'A' && "CreateCluster"[0] == 'C';
  }

  /** From a store in agreement, an operation and its save leave it in agreement exactly when the operation is save-safe. */
  lemma SaveKeepsAgreementIff(s: Store, ws: WorkingSet, op: Op)
    requires Inv(ws) && Safe(ws, op) && Agrees(s, ws) && Perform(ws, op).1.Accepted?
    ensures Agrees(SaveAfter(s, ws, op), Apply(ws, op)) <==> SaveSafe(ws, op)
  {
    if op.OpAddRoute? {
      AddRouteAgreesIff(s, ws, op);
    } else if op.OpAddRouteConfig? {
      AddRouteConfigAgreesIff(s, ws, op);
    } else if PutsCluster(op) {
      PutClusterAgrees(s, ws, op);
    } else if Apply(ws, op).version == ws.version {
      UnsavedUnchanged(ws, op);
    } else {
      NotIncremental(s, ws, op);
      FullSaveGoes(s, ws, op);
    }
  }

  // ----- saves go through -----

  /** Every row belongs to a record and holds its uid. */
  ghost predicate RowsMatch(s: Store, ws: WorkingSet) {
    && (forall id :: id in s.routes ==> FindRoute(ws.routes, id).Some? && FindRoute(ws.routes, id).value.uid == s.routes[id].saved.uid)
    && (forall id :: id in s.clusters ==>
          FindCluster(ws.clusters, id).Some? && FindCluster(ws.clusters, id).value.uid == s.clusters[id].saved.uid)
  }

  lemma UidsOfIdsDiffer(ws: WorkingSet, a: Route, b: Route)
    requires Inv(ws) && a in ws.routes && b in ws.routes && a.config.id != b.config.id
    ensures a.uid != b.uid
  {
    FindMember(ws.routes, RouteUidOf, a);
    FindMember(ws.routes, RouteUidOf, b);
  }

  lemma ClusterUidsOfIdsDiffer(ws: WorkingSet, a: Cluster, b: Cluster)
    requires Inv(ws) && a in ws.clusters && b in ws.clusters && a.config.id != b.config.id
    ensures a.uid != b.uid
  {
    FindMember(ws.clusters, ClusterUidOf, a);
    FindMember(ws.clusters, ClusterUidOf, b);
  }

  lemma MatchingClusterGoes(s: Store, ws: WorkingSet, c: Cluster)
    requires Inv(ws) && RowsMatch(s, ws) && c in ws.clusters
    ensures SaveCluster(s, c).done
  {
    forall id | id in s.clusters && id != c.config.id
      ensures s.clusters[id].saved.uid != c.uid
    {
      ClusterUidsOfIdsDiffer(ws, c, FindCluster(ws.clusters, id).value);
    }
  }

  lemma MatchingRouteGoes(s: Store, ws: WorkingSet, r: Route)
    requires Inv(ws) && RowsMatch(s, ws) && FindRoute(ws.routes, r.config.id) == Some(r)
    ensures SaveRoute(s, ws, r).done
  {
    forall id | id in s.routes && id != r.config.id
      ensures s.routes[id].saved.uid != r.uid
    {
      UidsOfIdsDiffer(ws, r, FindRoute(ws.routes, id).value);
    }
    if ClusterOfRoute(ws, r).Some? {
      var s1 := s.(routes := UpsertRoute(s.routes, r));
      MatchingClusterGoes(s1, ws, ClusterOfRoute(ws, r).value);
    }
  }

  /** Where an operation removes nothing, rows in agreement before match after it. */
  lemma RowsMatchAfter(s: Store, ws: WorkingSet, op: Op)
    requires Inv(ws) && Agrees(s, ws)
    requires forall id :: FindRoute(ws.routes, id).Some? ==> FindRoute(Apply(ws, op).routes, id).Some?
    requires forall id :: FindCluster(ws.clusters, id).Some? ==> FindCluster(Apply(ws, op).clusters, id).Some?
    ensures RowsMatch(s, Apply(ws, op))
  {
    forall id | id in s.routes
      ensures FindRoute(Apply(ws, op).routes, id).Some? && FindRoute(Apply(ws, op).routes, id).value.uid == s.routes[id].saved.uid
    {
      assert RouteAgrees(s, ws, id);
      RoutesKeepUid(ws, op, id);
    }
    forall id | id in s.clusters
      ensures FindCluster(Apply(ws, op).clusters, id).Some?
              && FindCluster(Apply(ws, op).clusters, id).value.uid == s.clusters[id].saved.uid
    {
      assert ClusterAgrees(s, ws, id);
      ClustersKeepUid(ws, op, id);
    }
  }

  lemma RegistrationRemovesNothing(ws: WorkingSet, op: Op, id: Id)
    requires Inv(ws) && op.OpAddRoute?
    ensures FindRoute(ws.routes, id).Some? ==> FindRoute(Apply(ws, op).routes, id).Some?
    ensures FindCluster(ws.clusters, id).Some? ==> FindCluster(Apply(ws, op).clusters, id).Some?
    ensures FindRoute(Apply(ws, op).routes, op.request.routeName).Some?
  {
    var placed := PutRoute(ws, RequestedRoute(op.request), op.source, op.createdBy, true);
    PutRouteKeeps(ws, RequestedRoute(op.request), op.source, op.createdBy, true);
    PutRouteLookup(ws, RequestedRoute(op.request), op.source, op.createdBy, id);
    RegisterClusterLookup(placed, op.request, op.source, op.createdBy, id);
  }

  lemma RegistrationGoes(s: Store, ws: WorkingSet, op: Op)
    requires Inv(ws) && Agrees(s, ws) && op.OpAddRoute?
    ensures SaveGoes(s, ws, op)
  {
    if Blank(op.request.routeName) {
      FullSaveGoes(s, ws, op);
    } else {
      AddRouteKeeps(ws, op.request, op.source, op.createdBy);
      forall id
        ensures FindRoute(ws.routes, id).Some? ==> FindRoute(Apply(ws, op).routes, id).Some?
        ensures FindCluster(ws.clusters, id).Some? ==> FindCluster(Apply(ws, op).clusters, id).Some?
      {
        RegistrationRemovesNothing(ws, op, id);
      }
      RowsMatchAfter(s, ws, op);
      RegistrationRemovesNothing(ws, op, op.request.routeName);
      TargetGoes(s, ws, op, op.request.routeName);
    }
  }

  lemma TargetGoes(s: Store, ws: WorkingSet, op: Op, target: Id)
    requires Inv(Apply(ws, op)) && RowsMatch(s, Apply(ws, op)) && !Blank(target)
    requires SaveKey(op) == ("AddOrUpdateRoute", Some(target)) && FindRoute(Apply(ws, op).routes, target).Some?
    ensures SaveGoes(s, ws, op)
  {
    MatchingRouteGoes(s, Apply(ws, op), FindRoute(Apply(ws, op).routes, target).value);
  }

  lemma ConfigurationRemovesNothing(ws: WorkingSet, op: Op, id: Id)
    requires Inv(ws) && op.OpAddRouteConfig? && Perform(ws, op).1.Accepted?
    ensures FindRoute(ws.routes, id).Some? ==> FindRoute(Apply(ws, op).routes, id).Some?
  {
    AddRouteConfigLookup(ws, op, id);
    NormalizedLookup(ws.routes, id);
  }

  lemma ConfigurationGoes(s: Store, ws: WorkingSet, op: Op)
    requires Inv(ws) && Agrees(s, ws) && op.OpAddRouteConfig? && Perform(ws, op).1.Accepted?
    ensures SaveGoes(s, ws, op)
  {
    AddRouteConfigKeeps(ws, op.route, op.source, op.createdBy);
    AddRouteConfigLookup(ws, op, op.route.id);
    forall id
      ensures FindRoute(ws.routes, id).Some? ==> FindRoute(Apply(ws, op).routes, id).Some?
    {
      ConfigurationRemovesNothing(ws, op, id);
    }
    RowsMatchAfter(s, ws, op);
    TargetGoes(s, ws, op, op.route.id);
  }

  /** From a store in agreement the save of every safe operation goes through. */
  lemma SavesGoThrough(s: Store, ws: WorkingSet, op: Op)
    requires Inv(ws) && Safe(ws, op) && Agrees(s, ws) && Perform(ws, op).1.Accepted?
    ensures SaveGoes(s, ws, op)
  {
    if op.OpAddRoute? {
      RegistrationGoes(s, ws, op);
    } else if op.OpAddRouteConfig? {
      ConfigurationGoes(s, ws, op);
    } else if PutsCluster(op) {
      PutClusterAgrees(s, ws, op);
    } else if Apply(ws, op).version != ws.version {
      NotIncremental(s, ws, op);
      FullSaveGoes(s, ws, op);
    }
  }

  function SaveAll(s: Store, ws: WorkingSet, ops: seq<Op>): Store
    decreases |ops|
  {
    if ops == [] then s else SaveAll(SaveAfter(s, ws, ops[0]), Apply(ws, ops[0]), ops[1..])
  }

  ghost predicate SaveSafeRun(ws: WorkingSet, ops: seq<Op>)
    decreases |ops|
  {
    ops == [] || (Safe(ws, ops[0]) && (Perform(ws, ops[0]).1.Accepted? ==> SaveSafe(ws, ops[0])) && SaveSafeRun(Apply(ws, ops[0]), ops[1..]))
  }

  /** No save of a run is refused. */
  predicate AllSavesGo(s: Store, ws: WorkingSet, ops: seq<Op>)
    decreases |ops|
  {
    ops == [] || (SaveGoes(s, ws, ops[0]) && AllSavesGo(SaveAfter(s, ws, ops[0]), Apply(ws, ops[0]), ops[1..]))
  }

  /** Over every run of safe operations every save goes through, and the store agrees with the working set. */
  lemma {:induction false} RunStaysSaved(s: Store, ws: WorkingSet, ops: seq<Op>)
    requires Inv(ws) && Agrees(s, ws) && SaveSafeRun(ws, ops)
    ensures AllSavesGo(s, ws, ops) && Agrees(SaveAll(s, ws, ops), ApplyAll(ws, ops))
    decreases |ops|
  {
    if ops != [] {
      KeepsInvariantIff(ws, ops[0]);
      if Perform(ws, ops[0]).1.Accepted? {
        SaveKeepsAgreementIff(s, ws, ops[0]);
        SavesGoThrough(s, ws, ops[0]);
      } else {
        RefusalChangesNothing(ws, ops[0]);
      }
      RunStaysSaved(SaveAfter(s, ws, ops[0]), Apply(ws, ops[0]), ops[1..]);
    }
  }

  // ----- what is lost -----

  const NOTHING_SAVED := Store(map[], map[], map[])

  /** Into empty tables everything can be saved. */
  lemma NothingSavedGoes(ws: WorkingSet)
    requires Inv(ws)
    ensures FullSave(NOTHING_SAVED, ws).done && Agrees(FullSave(NOTHING_SAVED, ws).store, ws)
  {
    MatchingRowsGoThrough(NOTHING_SAVED, ws);
    FullSaveAgrees(NOTHING_SAVED, ws);
  }

  // ----- renames whose saves failed -----

  function Plainly(id: Id, uid: Uid): Cluster {
    Cluster(ClusterConfig(id, map["d1" := Destination("http://a", None)], None, None, None, 0), uid, None, "", None)
  }

  function TwoClusters(first: Cluster, second: Cluster, version: nat): WorkingSet {
    WorkingSet([], [first, second], version, 2)
  }

  function RenameOnly(oldId: Id, newId: Id): Op {
    OpRenameCluster(oldId, newId, map[], None, None, "", None)
  }

  lemma FirstRenamed(oldId: Id, newId: Id, uid: Uid, other: Cluster, version: nat)
    requires !Blank(oldId) && !Blank(newId) && oldId != newId && other.config.id != newId
    ensures Perform(TwoClusters(Plainly(oldId, uid), other, version), RenameOnly(oldId, newId)) ==
            (TwoClusters(other, Plainly(newId, uid), version + 1), Accepted)
  {
    var ws := TwoClusters(Plainly(oldId, uid), other, version);
    var none: Addresses := map[];
    assert IndexOf(ws.clusters, ClusterKey, oldId) == 0 && ws.clusters[0] == Plainly(oldId, uid);
    assert RenameRefusal(ws, oldId, newId).None?;
    assert Renamed(ws.clusters[0], newId, none, None, None, "", None) == Plainly(newId, uid);
    assert Redirected(ws.routes, oldId, newId, uid) == [];
    assert RemoveAt(ws.clusters, 0) == [other];
    assert [other] + [Plainly(newId, uid)] == [other, Plainly(newId, uid)];
  }

  function SwapNames(): seq<Op> {
    [RenameOnly("a", "c"), RenameOnly("b", "a"), RenameOnly("c", "b")]
  }

  /** Three renames swap the names of two clusters. */
  lemma NamesSwapped()
    ensures ApplyAll(TwoClusters(Plainly("a", 0), Plainly("b", 1), 0), SwapNames()) ==
            TwoClusters(Plainly("a", 1), Plainly("b", 0), 3)
  {
    var ops := SwapNames();
    NamesAreNotBlank();
    assert "a"[0] in "a" && "b"[0] in "b" && "c"[0] in "c";
    assert "a"[0] != "b"[0] && "a"[0] != "c"[0] && "b"[0] != "c"[0];
    FirstRenamed("a", "c", 0, Plainly("b", 1), 0);
    FirstRenamed("b", "a", 1, Plainly("c", 0), 1);
    FirstRenamed("c", "b", 0, Plainly("a", 1), 2);
    assert ops[1..] == [ops[1], ops[2]] && ops[1..][1..] == [ops[2]] && ops[1..][1..][1..] == [];
  }

  lemma TwoClustersInv(first: Cluster, second: Cluster, version: nat)
    requires first.config.id != second.config.id && first.uid != second.uid && first.uid < 2 && second.uid < 2
    ensures Inv(TwoClusters(first, second, version))
  {
  }

  /** A row that holds the uid of the first record to be written refuses the pass. */
  lemma FirstIsRefused(s: Store, ws: WorkingSet, id: Id)
    requires |ws.clusters| == 2 && FindCluster(ws.clusters, id).Some? && id != ws.clusters[0].config.id
    requires id in s.clusters && s.clusters[id].saved.uid == ws.clusters[0].uid
    ensures !FullSave(s, ws).done
  {
    var m, keys := ClusterUids(ClustersLeft(s, ws)), ClusterKeys(ws.clusters);
    assert id in ClusterIds(ws.clusters);
    assert keys[..1] == [keys[0]] && [keys[0]][..0] == [];
    assert id in m && m[id] == keys[0].uid && !Free(m, keys[0]);
    assert !Fits(m, [keys[0]]);
  }

  /**
    When none of the three renames could be saved, the tables still hold the names as they
    were. No row is stale, and the first one to be written has the uid of the other: the
    full pass is refused, and so is every one after it.
   */
  lemma SwappedNamesAreRefused()
    ensures
      var ws := TwoClusters(Plainly("a", 0), Plainly("b", 1), 0);
      var s, after := FullSave(NOTHING_SAVED, ws).store, ApplyAll(ws, SwapNames());
      && Inv(ws) && Agrees(s, ws) && Inv(after) && "b" in s.clusters && s.clusters["b"].saved.uid == 1
      && !FullSave(s, after).done && !FullSave(FullSave(s, after).store, after).done
  {
    var ws := TwoClusters(Plainly("a", 0), Plainly("b", 1), 0);
    var s, after := FullSave(NOTHING_SAVED, ws).store, ApplyAll(ws, SwapNames());
    assert "a"[0] != "b"[0];
    TwoClustersInv(Plainly("a", 0), Plainly("b", 1), 0);
    TwoClustersInv(Plainly("a", 1), Plainly("b", 0), 3);
    NamesSwapped();
    NothingSavedGoes(ws);
    FindIs(ws.clusters, ClusterKey, 1);
    FindIs(after.clusters, ClusterKey, 1);
    assert ClusterAgrees(s, ws, "b");
    FirstIsRefused(s, after, "b");
    RefusedSaveIsRefusedAgain(s, after);
  }

  function BareRequest(routeName: Id, clusterName: Id): RegisterRequest {
    RegisterRequest(routeName, clusterName, "/", "http://a", None, [], None, false)
  }

  /** A registration that names no cluster creates one with the empty id, which is not saved. */
  lemma EmptyClusterIsNotSaved()
    ensures
      var ws, op := WorkingSet([], [], 0, 0), OpAddRoute(BareRequest("r", ""), "", None);
      Inv(ws) && Agrees(NOTHING_SAVED, ws) && !Agrees(SaveAfter(NOTHING_SAVED, ws, op), Apply(ws, op))
  {
    var ws, op := WorkingSet([], [], 0, 0), OpAddRoute(BareRequest("r", ""), "", None);
    NamesAreNotBlank();
    SaveKeepsAgreementIff(NOTHING_SAVED, ws, op);
  }

  function OneBadTransform(): WorkingSet {
    WorkingSet([Route(RouteConfig("r", Some("c"), None, None, [map[X_FORWARDED := "no"]], 0), 0, None, true, "", None)], [], 0, 1)
  }

  lemma BadTransformIsCorrected(config: RouteConfig)
    requires config.transforms == [map[X_FORWARDED := "no"]]
    ensures NormalizeTransforms(config) != config
  {
    assert Upper("no")[0] == 'N' && !Blank("no") by {
      assert "no"[0] in "no";
    }
    assert Upper("no") !in ["SET", "APPEND", "REMOVE", "RANDOM"];
    assert BadTransform(config.transforms[0]);
    assert NormalizeTransforms(config).transforms[0] == map[X_FORWARDED := "Set"];
    assert "Set"[0] != "no"[0];
  }

  /** Adding a second route configuration corrects the first route's transforms, and saves only the second. */
  lemma CorrectionIsNotSaved()
    ensures
      var ws, op := OneBadTransform(), OpAddRouteConfig(RouteConfig("q", Some("c"), None, None, [], 0), "", None);
      var s := FullSave(NOTHING_SAVED, ws).store;
      Inv(ws) && Agrees(s, ws) && !Agrees(SaveAfter(s, ws, op), Apply(ws, op))
  {
    var ws, op := OneBadTransform(), OpAddRouteConfig(RouteConfig("q", Some("c"), None, None, [], 0), "", None);
    var r := ws.routes[0];
    NamesAreNotBlank();
    BadTransformIsCorrected(r.config);
    NothingSavedGoes(ws);
    assert r in ws.routes && r.config.id[0] != op.route.id[0];
    SaveKeepsAgreementIff(FullSave(NOTHING_SAVED, ws).store, ws, op);
  }

  /** A row holds nothing of the enabled flags: the store agrees with both settings. */
  lemma EnabledIsNotSaved(s: Store, ws: WorkingSet, id: Id, enabled: bool)
    requires Inv(ws) && Agrees(s, ws)
    ensures Agrees(s, SetRouteEnabled(ws, id, enabled).0)
  {
    var after, i := SetRouteEnabled(ws, id, enabled).0, IndexOf(ws.routes, RouteKey, id);
    forall x
      ensures RouteAgrees(s, after, x) && ClusterAgrees(s, after, x)
    {
      assert RouteAgrees(s, ws, x) && ClusterAgrees(s, ws, x);
      if i < |ws.routes| {
        FindUpdate(ws.routes, RouteKey, i, ws.routes[i].(enabled := enabled), x);
      }
    }
  }
}
