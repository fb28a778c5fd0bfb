/** The main results about the dynamic configuration's working set, over every operation and every run. */
module WorkingSetTheorems {
  import opened Wrappers
  import opened KeyedList
  import opened WorkingSet
  import opened WorkingSetInvariant
  import opened WorkingSetBatches
  import opened RouteDeletion
  import IpIsolation

  // ----- the invariant -----

  /**
    What a caller must check: a removal for one client address must not take the last
    destination of a cluster whose uid another route has recorded, and the lists of a full
    replacement must not repeat an id. Every other operation is safe on every input.
   */
  ghost predicate Safe(ws: WorkingSet, op: Op) {
    match op
    case OpRemoveRoute(id, clientIp, _) => SafeRemoval(ws, id, clientIp)
    case OpReplaceAll(routes, clusters, _, _) => DistinctClusters(clusters) && DistinctRoutes(routes)
    case _ => true
  }

  predicate ClusterOp(op: Op) {
    op.OpAddClusterConfig? || op.OpAddCluster? || op.OpCreateCluster? || op.OpUpdateCluster? || op.OpRemoveCluster? || op.OpRenameCluster?
  }

  lemma ClusterOpKeeps(ws: WorkingSet, op: Op)
    requires Inv(ws) && ClusterOp(op)
    ensures Inv(Apply(ws, op))
    ensures Grows(ws.clusters, Apply(ws, op).clusters, ws.nextUid) || Shrinks(ws.clusters, Apply(ws, op).clusters) || op.OpRenameCluster?
  {
    match op
    case OpAddClusterConfig(config, source, who) => AddClusterConfigKeeps(ws, config, source, who);
    case OpAddCluster(id, dests, policy, health, source, who, metadata) =>
      AddClusterKeeps(ws, id, dests, policy, health, source, who, metadata);
    case OpCreateCluster(id, dests, policy, health, source, who) => CreateClusterKeeps(ws, id, dests, policy, health, source, who);
    case OpUpdateCluster(id, dests, policy, health) => UpdateClusterKeeps(ws, id, dests, policy, health);
    case OpRemoveCluster(id) => RemoveClusterKeeps(ws, id);
    case OpRenameCluster(oldId, newId, dests, policy, health, source, who) =>
      RenameClusterKeeps(ws, oldId, newId, dests, policy, health, source, who);
  }

  predicate RouteOp(op: Op) {
    op.OpAddRoute? || op.OpAddRouteConfig? || op.OpRemoveRoute? || op.OpSetRouteEnabled? || op.OpRenameRoute?
  }

  lemma RouteOpKeeps(ws: WorkingSet, op: Op)
    requires Inv(ws) && RouteOp(op)
    ensures Inv(Apply(ws, op)) <==> Safe(ws, op)
    ensures Grows(ws.clusters, Apply(ws, op).clusters, ws.nextUid) || Shrinks(ws.clusters, Apply(ws, op).clusters)
  {
    match op
    case OpAddRoute(request, source, who) => AddRouteKeeps(ws, request, source, who);
    case OpAddRouteConfig(route, source, who) => AddRouteConfigKeeps(ws, route, source, who);
    case OpRemoveRoute(_, _, _) => RemovalKeeps(ws, op);
    case OpSetRouteEnabled(id, enabled) => SetRouteEnabledKeeps(ws, id, enabled);
    case OpRenameRoute(oldId, newId, request, source, who) => RenameRouteKeeps(ws, oldId, newId, request, source, who);
  }

  lemma RemovalKeeps(ws: WorkingSet, op: Op)
    requires Inv(ws) && op.OpRemoveRoute?
    ensures Inv(Apply(ws, op)) <==> Safe(ws, op)
    ensures Grows(ws.clusters, Apply(ws, op).clusters, ws.nextUid) || Shrinks(ws.clusters, Apply(ws, op).clusters)
  {
    RemoveRouteIff(ws, op.id, op.clientIp, op.removeOrphanedCluster);
  }

  lemma OtherOpKeeps(ws: WorkingSet, op: Op)
    requires Inv(ws) && !ClusterOp(op) && !op.OpReplaceAll?
    ensures Inv(Apply(ws, op)) <==> Safe(ws, op)
    ensures Grows(ws.clusters, Apply(ws, op).clusters, ws.nextUid) || Shrinks(ws.clusters, Apply(ws, op).clusters)
  {
    match op
    case OpImportBatch(clusters, routes, source, who) => ImportBatchKeeps(ws, clusters, routes, source, who);
    case OpBatchDeleteClusters(ids) => BatchDeleteClustersKeeps(ws, ids);
    case OpBatchDeleteRoutes(ids, orphans) => NeverRemovesReferenced(ws, ids, orphans);
    case OpBatchSetRoutesEnabled(ids, enabled) => BatchSetRoutesEnabledKeeps(ws, ids, enabled);
    case _ => RouteOpKeeps(ws, op);
  }

  /** From a working set in order, an operation leaves it in order exactly when it is safe. */
  lemma KeepsInvariantIff(ws: WorkingSet, op: Op)
    requires Inv(ws)
    ensures Inv(Apply(ws, op)) <==> Safe(ws, op)
  {
    if ClusterOp(op) {
      ClusterOpKeeps(ws, op);
    } else if op.OpReplaceAll? {
      ReplaceAllIff(ws, op.routes, op.clusters, op.source, op.createdBy);
    } else {
      OtherOpKeeps(ws, op);
    }
  }

  ghost predicate SafeRun(ws: WorkingSet, ops: seq<Op>)
    decreases |ops|
  {
    ops == [] || (Safe(ws, ops[0]) && SafeRun(Apply(ws, ops[0]), ops[1..]))
  }

  /** Over every run of safe operations ids stay unique and no recorded uid dangles. */
  lemma {:induction false} RunKeepsInvariant(ws: WorkingSet, ops: seq<Op>)
    requires Inv(ws) && SafeRun(ws, ops)
    ensures Inv(ApplyAll(ws, ops))
    decreases |ops|
  {
    if ops != [] {
      KeepsInvariantIff(ws, ops[0]);
      RunKeepsInvariant(Apply(ws, ops[0]), ops[1..]);
    }
  }

  // ----- uids -----

  /** The id a cluster found under an id after an operation had before it. */
  function FormerId(ws: WorkingSet, op: Op, id: Id): Id {
    if op.OpRenameCluster? && op.newId == id && Perform(ws, op).1.Accepted? then op.oldId else id
  }

  /** The cluster found under an id has the uid of its former self, or one never used before. */
  ghost predicate KeepsUid(before: seq<Cluster>, formerId: Id, after: seq<Cluster>, id: Id, n: Uid) {
    FindCluster(after, id).Some? ==>
      var uid := FindCluster(after, id).value.uid;
      if FindCluster(before, formerId).Some? then uid == FindCluster(before, formerId).value.uid else uid >= n
  }

  lemma GrowthKeepsUid(before: seq<Cluster>, after: seq<Cluster>, id: Id, n: Uid)
    requires Grows(before, after, n) || Shrinks(before, after)
    ensures KeepsUid(before, id, after, id, n)
  {
  }

  lemma RenameKeepsUid(ws: WorkingSet, op: Op, id: Id)
    requires Inv(ws) && op.OpRenameCluster?
    ensures KeepsUid(ws.clusters, FormerId(ws, op, id), Apply(ws, op).clusters, id, ws.nextUid)
  {
    RenameLookup(ws, op.oldId, op.newId, op.destinations, op.policy, op.health, op.source, op.createdBy);
  }

  /** A surviving or renamed cluster keeps its uid; any other has a uid never used before. */
  lemma SurvivorsKeepUid(ws: WorkingSet, op: Op, id: Id)
    requires Inv(ws)
    ensures KeepsUid(ws.clusters, FormerId(ws, op, id), Apply(ws, op).clusters, id, ws.nextUid)
  {
    if op.OpReplaceAll? {
      ReplacedLookup(ws.clusters, op.clusters, op.source, op.createdBy, ws.nextUid, id);
    } else if op.OpRenameCluster? {
      RenameKeepsUid(ws, op, id);
    } else {
      if ClusterOp(op) {
        ClusterOpKeeps(ws, op);
      } else {
        OtherOpKeeps(ws, op);
      }
      GrowthKeepsUid(ws.clusters, Apply(ws, op).clusters, id, ws.nextUid);
    }
  }

  ghost predicate UidInUse(ws: WorkingSet, uid: Uid) {
    exists c :: c in ws.clusters && c.uid == uid
  }

  lemma {:induction false} SupplyGrows(ws: WorkingSet, op: Op)
    requires Inv(ws)
    ensures Apply(ws, op).nextUid >= ws.nextUid
  {
    if op.OpImportBatch? {
      var ws1 := ImportClusters(ws, op.clusters, op.source, op.createdBy);
      ImportClustersKeeps(ws, op.clusters, op.source, op.createdBy);
      ImportRoutesKeeps(ws1, op.routes, op.source, op.createdBy);
    }
  }

  /** The uid of a deleted cluster never denotes another one, whatever is done later. */
  lemma {:induction false} DeletedUidNeverReturns(ws: WorkingSet, ops: seq<Op>, uid: Uid)
    requires Inv(ws) && SafeRun(ws, ops) && uid < ws.nextUid && !UidInUse(ws, uid)
    ensures !UidInUse(ApplyAll(ws, ops), uid)
    decreases |ops|
  {
    if ops != [] {
      var after := Apply(ws, ops[0]);
      KeepsInvariantIff(ws, ops[0]);
      SupplyGrows(ws, ops[0]);
      forall c | c in after.clusters
        ensures c.uid != uid
      {
        FindMember(after.clusters, ClusterKey, c);
        SurvivorsKeepUid(ws, ops[0], c.config.id);
      }
      DeletedUidNeverReturns(after, ops[1..], uid);
    }
  }

  // ----- refusals -----

  /** A refused call changes neither the lists nor the version. */
  lemma RefusalChangesNothing(ws: WorkingSet, op: Op)
    requires Perform(ws, op).1.Refused?
    ensures Apply(ws, op) == ws
  {
  }

  // ----- renaming a cluster -----

  lemma RenameLookup(ws: WorkingSet, oldId: Id, newId: Id, destinations: Addresses, policy: Option<string>,
                     health: Option<int>, source: string, createdBy: Option<string>)
    requires Inv(ws)
    ensures
      var (after, result) := RenameCluster(ws, oldId, newId, destinations, policy, health, source, createdBy);
      result.Accepted? ==>
        && FindCluster(ws.clusters, oldId).Some? && FindCluster(ws.clusters, newId).None?
        && (forall id :: id != newId ==>
              FindCluster(after.clusters, id) == if id == oldId then None else FindCluster(ws.clusters, id))
        && FindCluster(after.clusters, newId).Some?
        && FindCluster(after.clusters, newId).value.uid == FindCluster(ws.clusters, oldId).value.uid
  {
    var (after, result) := RenameCluster(ws, oldId, newId, destinations, policy, health, source, createdBy);
    if result.Accepted? {
      var i, n := IndexOf(ws.clusters, ClusterKey, oldId), |after.clusters|;
      assert after.clusters == RemoveAt(ws.clusters, i) + [after.clusters[n - 1]];
      RenamedClusters(ws.clusters, i, after.clusters[n - 1], ws.nextUid);
    }
  }

  /** One route across a rename: its resolution is lost or gained only if it named the new id already. */
  lemma RenameResolves(before: seq<Cluster>, after: seq<Cluster>, oldId: Id, newId: Id, id: Option<Id>)
    requires !Blank(oldId) && !Blank(newId) && oldId != newId
    requires FindCluster(before, oldId).Some? && FindCluster(before, newId).None?
    requires forall x :: x != newId ==> FindCluster(after, x) == if x == oldId then None else FindCluster(before, x)
    requires FindCluster(after, newId).Some? && FindCluster(after, newId).value.uid == FindCluster(before, oldId).value.uid
    ensures Resolve(after, if id == Some(oldId) then Some(newId) else id) == Resolve(before, id) <==> id != Some(newId)
  {
  }

  /**
    A rename redirects exactly the routes that named the old id, and every route resolves to
    the same cluster as before exactly when none of them named the new id already.
   */
  lemma RenamePreservesMeaningIff(ws: WorkingSet, oldId: Id, newId: Id, destinations: Addresses, policy: Option<string>,
                                  health: Option<int>, source: string, createdBy: Option<string>)
    requires Inv(ws) && RenameCluster(ws, oldId, newId, destinations, policy, health, source, createdBy).1.Accepted?
    ensures
      var after := RenameCluster(ws, oldId, newId, destinations, policy, health, source, createdBy).0;
      && |after.routes| == |ws.routes|
      && (forall k :: 0 <= k < |ws.routes| ==> !Names(after.routes[k], oldId))
      && (forall k :: 0 <= k < |ws.routes| && !Names(ws.routes[k], oldId) ==> after.routes[k] == ws.routes[k])
      && ((forall k :: 0 <= k < |ws.routes| ==>
             Resolve(after.clusters, after.routes[k].config.clusterId) == Resolve(ws.clusters, ws.routes[k].config.clusterId))
          <==> (forall k :: 0 <= k < |ws.routes| ==> !Names(ws.routes[k], newId)))
  {
    var after := RenameCluster(ws, oldId, newId, destinations, policy, health, source, createdBy).0;
    var routes := after.routes;
    RenameLookup(ws, oldId, newId, destinations, policy, health, source, createdBy);
    assert |routes| == |ws.routes| && forall k :: 0 <= k < |routes| ==>
      && routes[k].config.clusterId == (if Names(ws.routes[k], oldId) then Some(newId) else ws.routes[k].config.clusterId)
      && (!Names(ws.routes[k], oldId) ==> routes[k] == ws.routes[k]);
    forall k | 0 <= k < |ws.routes|
      ensures Resolve(after.clusters, routes[k].config.clusterId) == Resolve(ws.clusters, ws.routes[k].config.clusterId)
              <==> !Names(ws.routes[k], newId)
    {
      RenameResolves(ws.clusters, after.clusters, oldId, newId, ws.routes[k].config.clusterId);
    }
  }

  /** Where every route that names a cluster resolves, a rename always preserves all resolutions. */
  lemma NoDanglingRouteNamesNewId(ws: WorkingSet, newId: Id)
    requires FindCluster(ws.clusters, newId).None? && !Blank(newId)
    requires forall r :: r in ws.routes && HasCluster(r) ==> Resolve(ws.clusters, r.config.clusterId).Some?
    ensures forall r :: r in ws.routes ==> !Names(r, newId)
  {
    forall r | r in ws.routes
      ensures !Names(r, newId)
    {
      if Names(r, newId) {
        assert HasCluster(r);
      }
    }
  }

  // ----- renaming a route -----

  /** A renamed route keeps its uid and every other route is untouched; but it always comes out enabled. */
  lemma RenameRouteIs(ws: WorkingSet, oldId: Id, newId: Id, request: RenameRequest, source: string, createdBy: Option<string>, id: Id)
    requires Inv(ws) && RenameRoute(ws, oldId, newId, request, source, createdBy).1.Accepted?
    ensures
      var before, after := FindRoute(ws.routes, oldId), RenameRoute(ws, oldId, newId, request, source, createdBy).0;
      && before.Some?
      && (id != oldId && id != newId ==> FindRoute(after.routes, id) == FindRoute(ws.routes, id))
      && FindRoute(after.routes, oldId).None?
      && match FindRoute(after.routes, newId)
         case None => false
         case Some(r) => r.uid == before.value.uid && r.enabled && r.clusterUid == Resolve(ws.clusters, r.config.clusterId)
  {
    var (after, rest) := (RenameRoute(ws, oldId, newId, request, source, createdBy).0, Without(ws.routes, RouteKey, oldId));
    var r := after.routes[|rest|];
    FindWithout(ws.routes, RouteKey, oldId, id);
    FindWithout(ws.routes, RouteKey, oldId, newId);
    FindWithout(ws.routes, RouteKey, oldId, oldId);
    FindAppend(rest, RouteKey, r, id);
    FindAppend(rest, RouteKey, r, oldId);
    FindAppend(rest, RouteKey, r, newId);
  }

  // ----- import -----

  lemma NormalizedLookup(routes: seq<Route>, id: Id)
    ensures FindRoute(NormalizeAll(routes), id) ==
            match FindRoute(routes, id)
            case None => None
            case Some(r) => Some(r.(config := NormalizeTransforms(r.config)))
  {
    SameKeysSameIndex(routes, NormalizeAll(routes), id);
  }

  /**
    An import is the last given configuration for every id given and changes no other record
    (but for bad transforms, corrected everywhere); imported routes resolve in its result,
    imported clusters included.
   */
  lemma ImportIs(ws: WorkingSet, clusters: seq<ClusterConfig>, routes: seq<RouteConfig>, source: string,
                 createdBy: Option<string>, id: Id)
    requires Inv(ws) && (clusters != [] || routes != [])
    ensures
      var after := ImportBatch(ws, clusters, routes, source, createdBy);
      && (match LastCluster(clusters, id)
          case None => FindCluster(after.clusters, id) == FindCluster(ws.clusters, id)
          case Some(config) => FindCluster(after.clusters, id).Some? && FindCluster(after.clusters, id).value.config == config)
      && match LastRoute(routes, id)
         case None => FindRoute(after.routes, id) == FindRoute(NormalizeAll(ws.routes), id)
         case Some(config) =>
           match FindRoute(after.routes, id)
           case None => false
           case Some(r) => r.config == NormalizeTransforms(WithOrder(config))
                           && r.clusterUid == Resolve(after.clusters, config.clusterId)
                           && (FindRoute(ws.routes, id).Some? ==> r.uid == FindRoute(ws.routes, id).value.uid
                                                                  && r.enabled == FindRoute(ws.routes, id).value.enabled)
  {
    var ws1 := ImportClusters(ws, clusters, source, createdBy);
    var ws2 := ImportRoutes(ws1, routes, source, createdBy);
    ImportClustersKeeps(ws, clusters, source, createdBy);
    ImportRoutesKeeps(ws1, routes, source, createdBy);
    ImportedCluster(ws, clusters, source, createdBy, id);
    ImportedRoute(ws1, routes, source, createdBy, id);
    NormalizedLookup(ws2.routes, id);
    NormalizedLookup(ws.routes, id);
  }

  // ----- a removal that leaves a dangling uid -----

  /** Two routes of one single-destination cluster: removing one for its client address leaves the other dangling. */
  lemma ClientRemovalCanDangle(ws: WorkingSet, r: Route, q: Route, c: Cluster, ip: string)
    requires Inv(ws) && ws.routes == [r, q] && ws.clusters == [c]
    requires !Blank(r.config.id) && !Blank(ip) && Names(r, c.config.id) && Names(q, c.config.id) && q.clusterUid == Some(c.uid)
    requires c.config.destinations == map[IpIsolation.GetDestinationKey(ip) := Destination("http://a", None)]
    ensures
      var after := Apply(ws, OpRemoveRoute(r.config.id, Some(ip), true));
      q in after.routes && Resolve(after.clusters, q.config.clusterId) == None && !Inv(after)
  {
    assert RouteKey(ws.routes[0]) != RouteKey(ws.routes[1]);
    FindIn2(r, q, RouteKey);
    FirstGoes(r, q, RouteKey);
    LastDestinationGoes(c, ip);
    var after := Apply(ws, OpRemoveRoute(r.config.id, Some(ip), true));
    assert after.routes == [q] && after.clusters == [];
    assert q in after.routes && !Coherent(q, after.clusters);
  }

  lemma FirstGoes<T, K>(a: T, b: T, key: T -> K)
    requires key(a) != key(b)
    ensures Without([a, b], key, key(a)) == [b]
  {
    assert Without([b], key, key(a)) == [b] by {
      WithoutNothing([b], key, key(a));
    }
    assert [a, b][1..] == [b];
  }

  lemma LastDestinationGoes(c: Cluster, ip: string)
    requires c.config.destinations == map[IpIsolation.GetDestinationKey(ip) := Destination("http://a", None)]
    ensures DropDestination([c], c.config.id, ip) == []
  {
    assert c.config.destinations - {IpIsolation.GetDestinationKey(ip)} == map[];
    assert IndexOf([c], ClusterKey, c.config.id) == 0;
    WithoutOnly([], c, [], ClusterKey, c.config.id);
    assert [] + [c] + [] == [c];
  }

  lemma ClientRemovalExample()
    ensures !Inv(Apply(TwoRoutesOneCluster(Some(0), map[IpIsolation.GetDestinationKey("10.0.0.1") := Destination("http://a", None)]),
                       OpRemoveRoute("r", Some("10.0.0.1"), true)))
  {
    var destinations := map[IpIsolation.GetDestinationKey("10.0.0.1") := Destination("http://a", None)];
    var ws := TwoRoutesOneCluster(Some(0), destinations);
    NamesAreNotBlank();
    TwoRoutesOneClusterInv(Some(0), destinations);
    assert !Blank("10.0.0.1") by {
      assert "10.0.0.1"[0] in "10.0.0.1";
    }
    ClientRemovalCanDangle(ws, ws.routes[0], ws.routes[1], ws.clusters[0], "10.0.0.1");
  }
}
