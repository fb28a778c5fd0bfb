/** When an operation is refused, and when it changes anything, by what a caller can look up beforehand. */
module OperationGuards {
  import opened Wrappers
  import opened KeyedList
  import opened WorkingSet
  import opened WorkingSetInvariant
  import opened WorkingSetBatches
  import opened WorkingSetTheorems

  predicate HasCluster(ws: WorkingSet, id: Id) {
    exists c :: c in ws.clusters && c.config.id == id
  }

  predicate HasRoute(ws: WorkingSet, id: Id) {
    exists r :: r in ws.routes && r.config.id == id
  }

  predicate Named(ws: WorkingSet, id: Id) {
    exists r :: r in ws.routes && Names(r, id)
  }

  /** Missing ids and destinations, unknown targets, names in use; a registration and the batches are never refused. */
  predicate Refuses(ws: WorkingSet, op: Op) {
    match op
    case OpAddClusterConfig(config, _, _) => Blank(config.id) || config.destinations == map[]
    case OpAddCluster(id, destinations, _, _, _, _, _) => Blank(id) || destinations == map[]
    case OpCreateCluster(id, _, _, _, _, _) => HasCluster(ws, id)
    case OpUpdateCluster(id, _, _, _) => Blank(id) || !HasCluster(ws, id)
    case OpRemoveCluster(id) => Blank(id) || Named(ws, id) || !HasCluster(ws, id)
    case OpRenameCluster(oldId, newId, _, _, _, _, _) =>
      Blank(oldId) || Blank(newId) || oldId == newId || !HasCluster(ws, oldId) || HasCluster(ws, newId)
    case OpAddRouteConfig(route, _, _) => Blank(route.id) || route.clusterId.None? || Blank(route.clusterId.value)
    case OpRemoveRoute(id, _, _) => Blank(id) || !HasRoute(ws, id)
    case OpSetRouteEnabled(id, _) => Blank(id) || !HasRoute(ws, id)
    case OpRenameRoute(oldId, newId, _, _, _) =>
      Blank(oldId) || Blank(newId) || oldId == newId || !HasRoute(ws, oldId) || HasRoute(ws, newId)
    case _ => false
  }

  /** Batches without a target change nothing, and neither does what is refused. */
  predicate Changes(ws: WorkingSet, op: Op) {
    match op
    case OpImportBatch(clusters, routes, _, _) => clusters != [] || routes != []
    case OpBatchDeleteClusters(ids) => exists id :: id in ids && !Blank(id) && HasCluster(ws, id) && !Named(ws, id)
    case OpBatchDeleteRoutes(ids, _) => ids != []
    case OpBatchSetRoutesEnabled(ids, _) => exists id :: id in ids && !Blank(id) && HasRoute(ws, id)
    case _ => !Refuses(ws, op)
  }

  lemma ClusterOpRefusedIff(ws: WorkingSet, op: Op)
    requires ClusterOp(op)
    ensures Perform(ws, op).1.Refused? <==> Refuses(ws, op)
  {
  }

  lemma RouteOpRefusedIff(ws: WorkingSet, op: Op)
    requires RouteOp(op)
    ensures Perform(ws, op).1.Refused? <==> Refuses(ws, op)
  {
  }

  lemma RefusedIff(ws: WorkingSet, op: Op)
    ensures Perform(ws, op).1.Refused? <==> Refuses(ws, op)
  {
    if ClusterOp(op) {
      ClusterOpRefusedIff(ws, op);
    } else if RouteOp(op) {
      RouteOpRefusedIff(ws, op);
    }
  }

  /** An id the operation needs is blank. */
  predicate NeedsId(op: Op) {
    match op
    case OpAddClusterConfig(config, _, _) => Blank(config.id)
    case OpAddCluster(id, _, _, _, _, _, _) => Blank(id)
    case OpUpdateCluster(id, _, _, _) => Blank(id)
    case OpRemoveCluster(id) => Blank(id)
    case OpRenameCluster(oldId, newId, _, _, _, _, _) => Blank(oldId) || Blank(newId)
    case OpAddRouteConfig(route, _, _) => Blank(route.id) || route.clusterId.None? || Blank(route.clusterId.value)
    case OpRemoveRoute(id, _, _) => Blank(id)
    case OpSetRouteEnabled(id, _) => Blank(id)
    case OpRenameRoute(oldId, newId, _, _, _) => Blank(oldId) || Blank(newId)
    case _ => false
  }

  /** The record the operation is about is not there. */
  predicate Misses(ws: WorkingSet, op: Op) {
    match op
    case OpUpdateCluster(id, _, _, _) => !HasCluster(ws, id)
    case OpRemoveCluster(id) => !HasCluster(ws, id)
    case OpRenameCluster(oldId, _, _, _, _, _, _) => !HasCluster(ws, oldId)
    case OpRemoveRoute(id, _, _) => !HasRoute(ws, id)
    case OpSetRouteEnabled(id, _) => !HasRoute(ws, id)
    case OpRenameRoute(oldId, _, _, _, _) => !HasRoute(ws, oldId)
    case _ => false
  }

  /**
    What a reason means: a blank id comes before anything else, then missing destinations, a
    rename to the same id, a cluster still named by a route, a missing record, and last a
    name in use.
   */
  predicate ReasonHolds(ws: WorkingSet, op: Op, reason: Reason) {
    match reason
    case EmptyId => NeedsId(op)
    case NoDestinations => !NeedsId(op) && (op.OpAddClusterConfig? || op.OpAddCluster?)
    case SameId => !NeedsId(op) && (op.OpRenameCluster? || op.OpRenameRoute?) && op.oldId == op.newId
    case Referenced => !NeedsId(op) && op.OpRemoveCluster? && Named(ws, op.id)
    case NotFound =>
      && !NeedsId(op) && Misses(ws, op)
      && (op.OpRemoveCluster? ==> !Named(ws, op.id)) && (op.OpRenameCluster? || op.OpRenameRoute? ==> op.oldId != op.newId)
    case AlreadyExists =>
      && !NeedsId(op) && !Misses(ws, op)
      && (op.OpCreateCluster? || ((op.OpRenameCluster? || op.OpRenameRoute?) && op.oldId != op.newId))
  }

  lemma ClusterReasonIs(ws: WorkingSet, op: Op)
    requires ClusterOp(op) && Perform(ws, op).1.Refused?
    ensures ReasonHolds(ws, op, Perform(ws, op).1.reason)
  {
  }

  lemma RouteReasonIs(ws: WorkingSet, op: Op)
    requires RouteOp(op) && Perform(ws, op).1.Refused?
    ensures ReasonHolds(ws, op, Perform(ws, op).1.reason)
  {
  }

  /** The reason given is the one that holds; no two of them do at once. */
  lemma ReasonIs(ws: WorkingSet, op: Op, reason: Reason)
    requires Perform(ws, op).1.Refused?
    ensures Perform(ws, op).1.reason == reason <==> ReasonHolds(ws, op, reason)
  {
    if ClusterOp(op) {
      ClusterReasonIs(ws, op);
    } else if RouteOp(op) {
      RouteReasonIs(ws, op);
    }
  }

  lemma CommitsOrNothing(ws: WorkingSet, op: Op)
    ensures Apply(ws, op) == ws || Apply(ws, op).version == ws.version + 1
  {
    if op.OpImportBatch? {
      ImportKeepsVersion(ws, op.clusters, op.routes, op.source, op.createdBy);
    }
  }

  /** A batch deletes something exactly when some id is deleted; until then the list is as it was. */
  lemma {:induction false} DeletesAnyIff(clusters: seq<Cluster>, ids: seq<Id>, referenced: set<Id>)
    ensures
      var (left, flags) := DeleteClusters(clusters, ids, referenced);
      && (true in flags <==> exists id :: id in ids && !Blank(id) && id !in referenced && FindCluster(clusters, id).Some?)
      && (true !in flags ==> left == clusters)
    decreases |ids|
  {
    if ids != [] {
      var init, last := ids[..|ids| - 1], ids[|ids| - 1];
      assert ids == init + [last];
      DeletesAnyIff(clusters, init, referenced);
    }
  }

  lemma ReferencedIff(ws: WorkingSet, id: Id)
    requires !Blank(id)
    ensures id in ReferencedIds(ws.routes) <==> Named(ws, id)
  {
    if Named(ws, id) {
      var r :| r in ws.routes && Names(r, id);
      assert r.config.clusterId.value in ReferencedIds(ws.routes);
    }
  }

  lemma BatchDeletesIff(ws: WorkingSet, ids: seq<Id>)
    ensures true in BatchDeleteClusters(ws, ids).1 <==> Changes(ws, OpBatchDeleteClusters(ids))
  {
    DeletesAnyIff(ws.clusters, ids, ReferencedIds(ws.routes));
    forall id | id in ids && !Blank(id)
      ensures id !in ReferencedIds(ws.routes) && FindCluster(ws.clusters, id).Some? <==> HasCluster(ws, id) && !Named(ws, id)
    {
      ReferencedIff(ws, id);
    }
  }

  lemma BatchEnablesIff(ws: WorkingSet, ids: seq<Id>, enabled: bool)
    requires Inv(ws)
    ensures true in BatchSetRoutesEnabled(ws, ids, enabled).1 <==> Changes(ws, OpBatchSetRoutesEnabled(ids, enabled))
  {
    EnableFlagCount(ws.routes, ids, enabled);
    forall k | 0 <= k < |ids|
      ensures EnableRoutes(ws.routes, ids, enabled).1[k] <==> !Blank(ids[k]) && HasRoute(ws, ids[k])
    {
      EnableFlagsAre(ws.routes, ids, enabled, k);
    }
  }

  lemma SingleChangesIff(ws: WorkingSet, op: Op)
    requires ClusterOp(op) || RouteOp(op)
    ensures Apply(ws, op) != ws <==> Perform(ws, op).1.Accepted?
  {
  }

  /** An operation changes the working set exactly when its guard says so, and then its version. */
  lemma ChangesIff(ws: WorkingSet, op: Op)
    requires Inv(ws)
    ensures Apply(ws, op) != ws <==> Changes(ws, op)
    ensures Apply(ws, op).version == ws.version + if Changes(ws, op) then 1 else 0
  {
    CommitsOrNothing(ws, op);
    if ClusterOp(op) || RouteOp(op) {
      SingleChangesIff(ws, op);
      RefusedIff(ws, op);
    } else if op.OpImportBatch? {
      ImportKeepsVersion(ws, op.clusters, op.routes, op.source, op.createdBy);
    } else if op.OpBatchDeleteClusters? {
      BatchDeletesIff(ws, op.ids);
    } else if op.OpBatchSetRoutesEnabled? {
      BatchEnablesIff(ws, op.ids, op.enabled);
    }
  }
}
