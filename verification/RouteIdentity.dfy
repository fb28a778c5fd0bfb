/** A route that is there before and after an operation keeps its uid. */
module RouteIdentity {
  import opened Wrappers
  import opened KeyedList
  import opened WorkingSet
  import opened WorkingSetInvariant
  import opened WorkingSetBatches
  import opened RouteDeletion
  import opened WorkingSetTheorems

  ghost predicate KeepsRouteUid(before: seq<Route>, after: seq<Route>, id: Id) {
    FindRoute(before, id).Some? && FindRoute(after, id).Some? ==> FindRoute(after, id).value.uid == FindRoute(before, id).value.uid
  }

  lemma PutKeepsRouteUid(ws: WorkingSet, config: RouteConfig, source: string, createdBy: Option<string>, id: Id)
    requires Inv(ws)
    ensures KeepsRouteUid(ws.routes, PutRoute(ws, config, source, createdBy, true).routes, id)
    ensures KeepsRouteUid(ws.routes, NormalizeAll(PutRoute(ws, config, source, createdBy, true).routes), id)
  {
    var i, after := IndexOf(ws.routes, RouteKey, config.id), PutRoute(ws, config, source, createdBy, true).routes;
    if i < |ws.routes| {
      FindUpdate(ws.routes, RouteKey, i, after[i], id);
    } else {
      FindAppend(ws.routes, RouteKey, after[i], id);
    }
    NormalizedLookup(after, id);
  }

  /** Lists of the same ids and uids, place by place. */
  lemma SamePlacesKeepUid(before: seq<Route>, after: seq<Route>, id: Id)
    requires |after| == |before|
    requires forall k :: 0 <= k < |before| ==> after[k].config.id == before[k].config.id && after[k].uid == before[k].uid
    ensures KeepsRouteUid(before, after, id)
  {
    SameKeysSameIndex(before, after, id);
  }

  lemma SublistKeepsUid(before: seq<Route>, after: seq<Route>, id: Id)
    requires Unique(before, RouteKey) && forall r :: r in after ==> r in before
    ensures KeepsRouteUid(before, after, id)
  {
    if FindRoute(after, id).Some? {
      FindMember(before, RouteKey, FindRoute(after, id).value);
    }
  }

  lemma ReplacedKeepsUid(known: seq<Route>, clusters: seq<Cluster>, routes: seq<RouteConfig>, source: string,
                         createdBy: Option<string>, n: Uid, id: Id)
    ensures KeepsRouteUid(known, ReplaceRoutes(known, clusters, routes, source, createdBy, n).0, id)
  {
    var (after, m) := ReplaceRoutes(known, clusters, routes, source, createdBy, n);
    ReplaceRoutesAre(known, clusters, routes, source, createdBy, n);
    var k := IndexOf(after, RouteKey, id);
    if k < |after| {
      assert ReplacedRoute(known, clusters, routes[k], source, createdBy, n, m, after[k]);
    }
  }

  lemma AddKeepsRouteUid(ws: WorkingSet, op: Op, id: Id)
    requires Inv(ws) && op.OpAddRoute?
    ensures KeepsRouteUid(ws.routes, Apply(ws, op).routes, id)
  {
    PutKeepsRouteUid(ws, RequestedRoute(op.request), op.source, op.createdBy, id);
  }

  lemma AddConfigKeepsRouteUid(ws: WorkingSet, op: Op, id: Id)
    requires Inv(ws) && op.OpAddRouteConfig?
    ensures KeepsRouteUid(ws.routes, Apply(ws, op).routes, id)
  {
    PutKeepsRouteUid(ws, op.route, op.source, op.createdBy, id);
  }

  lemma RemoveKeepsRouteUid(ws: WorkingSet, op: Op, id: Id)
    requires Inv(ws) && op.OpRemoveRoute?
    ensures KeepsRouteUid(ws.routes, Apply(ws, op).routes, id)
  {
    FindWithout(ws.routes, RouteKey, op.id, id);
  }

  lemma EnabledKeepsRouteUid(ws: WorkingSet, op: Op, id: Id)
    requires Inv(ws) && op.OpSetRouteEnabled?
    ensures KeepsRouteUid(ws.routes, Apply(ws, op).routes, id)
  {
    SamePlacesKeepUid(ws.routes, SetRouteEnabled(ws, op.id, op.enabled).0.routes, id);
  }

  lemma RenameKeepsRouteUid(ws: WorkingSet, op: Op, id: Id)
    requires Inv(ws) && op.OpRenameRoute?
    ensures KeepsRouteUid(ws.routes, Apply(ws, op).routes, id)
  {
    if RouteRenameRefusal(ws, op.oldId, op.newId).None? {
      RenameRouteIs(ws, op.oldId, op.newId, op.changes, op.source, op.createdBy, id);
    }
  }

  lemma RouteOpKeepsRouteUid(ws: WorkingSet, op: Op, id: Id)
    requires Inv(ws) && RouteOp(op)
    ensures KeepsRouteUid(ws.routes, Apply(ws, op).routes, id)
  {
    if op.OpAddRoute? {
      AddKeepsRouteUid(ws, op, id);
    } else if op.OpAddRouteConfig? {
      AddConfigKeepsRouteUid(ws, op, id);
    } else if op.OpRemoveRoute? {
      RemoveKeepsRouteUid(ws, op, id);
    } else if op.OpSetRouteEnabled? {
      EnabledKeepsRouteUid(ws, op, id);
    } else {
      RenameKeepsRouteUid(ws, op, id);
    }
  }

  lemma BatchKeepsRouteUid(ws: WorkingSet, op: Op, id: Id)
    requires Inv(ws) && !RouteOp(op) && !ClusterOp(op)
    ensures KeepsRouteUid(ws.routes, Apply(ws, op).routes, id)
  {
    match op
    case OpImportBatch(clusters, routes, source, who) =>
      if clusters != [] || routes != [] {
        ImportIs(ws, clusters, routes, source, who, id);
        NormalizedLookup(ws.routes, id);
      }
    case OpBatchDeleteClusters(_) =>
    case OpBatchDeleteRoutes(ids, _) =>
      DeleteRoutesLeaves(ws.routes, ids, ws.clusters, ws.nextUid);
      SublistKeepsUid(ws.routes, Apply(ws, op).routes, id);
    case OpBatchSetRoutesEnabled(ids, enabled) =>
      EnableRoutesIs(ws.routes, ids, enabled);
      SamePlacesKeepUid(ws.routes, Apply(ws, op).routes, id);
    case OpReplaceAll(routes, clusters, source, who) =>
      var (cs, uid) := ReplaceClusters(ws.clusters, clusters, source, who, ws.nextUid);
      ReplacedKeepsUid(ws.routes, cs, routes, source, who, uid, id);
  }

  /** Whatever is done, an id that names a route before and after names one with the same uid. */
  lemma RoutesKeepUid(ws: WorkingSet, op: Op, id: Id)
    requires Inv(ws)
    ensures KeepsRouteUid(ws.routes, Apply(ws, op).routes, id)
  {
    if RouteOp(op) {
      RouteOpKeepsRouteUid(ws, op, id);
    } else if ClusterOp(op) {
      SamePlacesKeepUid(ws.routes, Apply(ws, op).routes, id);
    } else {
      BatchKeepsRouteUid(ws, op, id);
    }
  }
}
