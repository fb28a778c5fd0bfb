/**
  Plugin bindings across a rename. An operation is published before it is saved, and a
  compilation resolves the uids recorded in bindings through the tables, so the snapshot a
  rename publishes still sees the old id.
 */
module RenamedBindings {
  import opened Wrappers
  import opened KeyedList
  import opened StableSort
  import opened WorkingSet
  import opened WorkingSetInvariant
  import opened RouteDeletion
  import opened WorkingSetTheorems
  import opened Persister
  import opened PersisterTheorems
  import opened ConfigPublisher
  import opened SnapshotCompiler

  // ----- what a compilation reads -----

  function At(m: map<Uid, Id>, uid: Uid): Option<Id> {
    if uid in m then Some(m[uid]) else None
  }

  ghost predicate RouteTable(m: map<Uid, Id>, s: Store) {
    forall uid, id :: At(m, uid) == Some(id) <==> (id in s.routes && s.routes[id].saved.uid == uid)
  }

  ghost predicate ClusterTable(m: map<Uid, Id>, s: Store) {
    forall uid, id :: At(m, uid) == Some(id) <==> (id in s.clusters && s.clusters[id].saved.uid == uid)
  }

  /** The published ids of a working set, and the uids of the tables. */
  ghost predicate Reads(now: Surroundings, s: Store, ws: WorkingSet) {
    && now.routeIds == RouteIds(PublishedRoutes(ws.routes)) && now.clusterIds == ClusterIds(ws.clusters)
    && RouteTable(now.routeUids, s) && ClusterTable(now.clusterUids, s)
  }

  function RouteIdOf(ws: WorkingSet, uid: Uid): Option<Id> {
    match Find(ws.routes, RouteUidOf, uid)
    case None => None
    case Some(r) => Some(r.config.id)
  }

  function ClusterIdOf(ws: WorkingSet, uid: Uid): Option<Id> {
    match Find(ws.clusters, ClusterUidOf, uid)
    case None => None
    case Some(c) => Some(c.config.id)
  }

  /** The rows of a store in agreement hold the uids of the working set's records. */
  lemma RouteRows(s: Store, ws: WorkingSet, uid: Uid, id: Id)
    requires Inv(ws) && Agrees(s, ws)
    ensures id in s.routes && s.routes[id].saved.uid == uid <==> RouteIdOf(ws, uid) == Some(id)
  {
    assert RouteAgrees(s, ws, id);
    var r := Find(ws.routes, RouteUidOf, uid);
    if r.Some? {
      FindMember(ws.routes, RouteKey, r.value);
    }
    if FindRoute(ws.routes, id).Some? {
      FindMember(ws.routes, RouteUidOf, FindRoute(ws.routes, id).value);
    }
  }

  lemma ClusterRows(s: Store, ws: WorkingSet, uid: Uid, id: Id)
    requires Inv(ws) && Agrees(s, ws)
    ensures id in s.clusters && s.clusters[id].saved.uid == uid <==> ClusterIdOf(ws, uid) == Some(id)
  {
    assert ClusterAgrees(s, ws, id);
    var c := Find(ws.clusters, ClusterUidOf, uid);
    if c.Some? {
      FindMember(ws.clusters, ClusterKey, c.value);
    }
    if FindCluster(ws.clusters, id).Some? {
      FindMember(ws.clusters, ClusterUidOf, FindCluster(ws.clusters, id).value);
    }
  }

  /** The tables of a store in agreement resolve every uid as the working set does, and only they do. */
  lemma RouteTableIff(m: map<Uid, Id>, s: Store, ws: WorkingSet)
    requires Inv(ws) && Agrees(s, ws)
    ensures RouteTable(m, s) <==> forall uid :: At(m, uid) == RouteIdOf(ws, uid)
  {
    forall uid, id
      ensures (id in s.routes && s.routes[id].saved.uid == uid) <==> RouteIdOf(ws, uid) == Some(id)
    {
      RouteRows(s, ws, uid, id);
    }
    if RouteTable(m, s) {
      forall uid
        ensures At(m, uid) == RouteIdOf(ws, uid)
      {
        SameOption(At(m, uid), RouteIdOf(ws, uid));
      }
    }
  }

  lemma ClusterTableIff(m: map<Uid, Id>, s: Store, ws: WorkingSet)
    requires Inv(ws) && Agrees(s, ws)
    ensures ClusterTable(m, s) <==> forall uid :: At(m, uid) == ClusterIdOf(ws, uid)
  {
    forall uid, id
      ensures (id in s.clusters && s.clusters[id].saved.uid == uid) <==> ClusterIdOf(ws, uid) == Some(id)
    {
      ClusterRows(s, ws, uid, id);
    }
    if ClusterTable(m, s) {
      forall uid
        ensures At(m, uid) == ClusterIdOf(ws, uid)
      {
        SameOption(At(m, uid), ClusterIdOf(ws, uid));
      }
    }
  }

  lemma SameOption(a: Option<Id>, b: Option<Id>)
    requires forall id :: a == Some(id) <==> b == Some(id)
    ensures a == b
  {
    match a
    case Some(id) => assert b == Some(id);
    case None => assert b.Some? ==> a == b;
  }

  lemma RouteTableIs(m: map<Uid, Id>, s: Store, ws: WorkingSet, uid: Uid)
    requires Inv(ws) && Agrees(s, ws) && RouteTable(m, s)
    ensures At(m, uid) == RouteIdOf(ws, uid)
  {
    RouteTableIff(m, s, ws);
  }

  lemma ClusterTableIs(m: map<Uid, Id>, s: Store, ws: WorkingSet, uid: Uid)
    requires Inv(ws) && Agrees(s, ws) && ClusterTable(m, s)
    ensures At(m, uid) == ClusterIdOf(ws, uid)
  {
    ClusterTableIff(m, s, ws);
  }

  // ----- uids across a rename -----

  predicate Renames(op: Op) {
    op.OpRenameCluster? || op.OpRenameRoute?
  }

  /** The binding has recorded the uid of what is renamed. */
  predicate OfRenamed(ws: WorkingSet, op: Op, b: BindingEntity) {
    match op
    case OpRenameCluster(oldId, _, _, _, _, _, _) =>
      b.scope == ClusterScope && FindCluster(ws.clusters, oldId).Some? && b.clusterUid == Some(FindCluster(ws.clusters, oldId).value.uid)
    case OpRenameRoute(oldId, _, _, _, _) =>
      b.scope == RouteScope && FindRoute(ws.routes, oldId).Some? && b.routeUid == Some(FindRoute(ws.routes, oldId).value.uid)
    case _ => false
  }

  lemma ClusterRenameMoves(ws: WorkingSet, op: Op, uid: Uid)
    requires Inv(ws) && op.OpRenameCluster? && Perform(ws, op).1.Accepted?
    ensures FindCluster(ws.clusters, op.oldId).Some?
    ensures ClusterIdOf(Apply(ws, op), uid) ==
            if uid == FindCluster(ws.clusters, op.oldId).value.uid then Some(op.newId) else ClusterIdOf(ws, uid)
  {
    var i := IndexOf(ws.clusters, ClusterKey, op.oldId);
    MovedToEnd(ws.clusters, ClusterUidOf, i, Apply(ws, op).clusters[|ws.clusters| - 1], uid);
  }

  /** A record that moves to the end under its key is found there, and the others where they were. */
  lemma MovedToEnd<T, K>(s: seq<T>, key: T -> K, i: nat, x: T, id: K)
    requires Unique(s, key) && i < |s| && key(x) == key(s[i])
    ensures Find(RemoveAt(s, i) + [x], key, id) == if id == key(x) then Some(x) else Find(s, key, id)
  {
    FindRemove(s, key, i, id);
    FindRemove(s, key, i, key(x));
    FindAppend(RemoveAt(s, i), key, x, id);
  }

  lemma {:induction false} SameUidAndId(a: seq<Route>, b: seq<Route>, uid: Uid)
    requires |a| == |b| && forall k :: 0 <= k < |a| ==> a[k].uid == b[k].uid && a[k].config.id == b[k].config.id
    ensures IndexOf(a, RouteUidOf, uid) == IndexOf(b, RouteUidOf, uid)
  {
    if a != [] {
      assert a[0].uid == b[0].uid;
      SameUidAndId(a[1..], b[1..], uid);
    }
  }

  lemma ClusterRenameKeepsRoutes(ws: WorkingSet, op: Op, uid: Uid)
    requires Inv(ws) && op.OpRenameCluster? && Perform(ws, op).1.Accepted?
    ensures RouteIdOf(Apply(ws, op), uid) == RouteIdOf(ws, uid)
  {
    SameUidAndId(ws.routes, Apply(ws, op).routes, uid);
  }

  lemma RouteRenameMoves(ws: WorkingSet, op: Op, uid: Uid)
    requires Inv(ws) && op.OpRenameRoute? && Perform(ws, op).1.Accepted?
    ensures FindRoute(ws.routes, op.oldId).Some?
    ensures RouteIdOf(Apply(ws, op), uid) ==
            if uid == FindRoute(ws.routes, op.oldId).value.uid then Some(op.newId) else RouteIdOf(ws, uid)
    ensures Apply(ws, op).clusters == ws.clusters
  {
    MovedRouteUid(ws, op.oldId, op.newId, op.changes, op.source, op.createdBy, uid);
  }

  lemma MovedRouteUid(ws: WorkingSet, oldId: Id, newId: Id, changes: RenameRequest, source: string, createdBy: Option<string>, uid: Uid)
    requires Inv(ws) && RouteRenameRefusal(ws, oldId, newId).None?
    ensures
      var after := RenameRoute(ws, oldId, newId, changes, source, createdBy).0;
      && RouteIdOf(after, uid) == (if uid == FindRoute(ws.routes, oldId).value.uid then Some(newId) else RouteIdOf(ws, uid))
      && after.clusters == ws.clusters
  {
    var i, r := RenameRouteShape(ws, oldId, newId, changes, source, createdBy);
    MovedToEnd(ws.routes, RouteUidOf, i, r, uid);
  }

  lemma PublishedIds(routes: seq<Route>, id: Id)
    requires Unique(routes, RouteKey)
    ensures id in RouteIds(PublishedRoutes(routes)) <==> FindRoute(routes, id).Some? && FindRoute(routes, id).value.enabled
  {
    PublishedExactlyEnabled(routes, id);
  }

  // ----- one binding -----

  /** What the tables say of a uid before the save and after it. */
  lemma RouteUidsSeen(s: Store, ws: WorkingSet, op: Op, now: Surroundings, next: Surroundings, uid: Uid)
    requires Inv(ws) && Agrees(s, ws) && Renames(op) && Perform(ws, op).1.Accepted?
    requires Reads(now, s, Apply(ws, op)) && Reads(next, SaveAfter(s, ws, op), Apply(ws, op))
    ensures At(now.routeUids, uid) == RouteIdOf(ws, uid) && At(next.routeUids, uid) == RouteIdOf(Apply(ws, op), uid)
  {
    KeepsInvariantIff(ws, op);
    SaveKeepsAgreementIff(s, ws, op);
    RouteTableIs(now.routeUids, s, ws, uid);
    RouteTableIs(next.routeUids, SaveAfter(s, ws, op), Apply(ws, op), uid);
  }

  lemma ClusterUidsSeen(s: Store, ws: WorkingSet, op: Op, now: Surroundings, next: Surroundings, uid: Uid)
    requires Inv(ws) && Agrees(s, ws) && Renames(op) && Perform(ws, op).1.Accepted?
    requires Reads(now, s, Apply(ws, op)) && Reads(next, SaveAfter(s, ws, op), Apply(ws, op))
    ensures At(now.clusterUids, uid) == ClusterIdOf(ws, uid) && At(next.clusterUids, uid) == ClusterIdOf(Apply(ws, op), uid)
  {
    KeepsInvariantIff(ws, op);
    SaveKeepsAgreementIff(s, ws, op);
    ClusterTableIs(now.clusterUids, s, ws, uid);
    ClusterTableIs(next.clusterUids, SaveAfter(s, ws, op), Apply(ws, op), uid);
  }

  /** Before and after the save a binding resolves alike, unless it is one of what was renamed. */
  lemma OthersResolveAlike(s: Store, ws: WorkingSet, op: Op, b: BindingEntity, now: Surroundings, next: Surroundings)
    requires Inv(ws) && Agrees(s, ws) && Renames(op) && Perform(ws, op).1.Accepted? && !OfRenamed(ws, op, b)
    requires Reads(now, s, Apply(ws, op)) && Reads(next, SaveAfter(s, ws, op), Apply(ws, op))
    ensures ToSnapshot(b, now) == ToSnapshot(b, next)
  {
    if b.scope == RouteScope && b.routeUid.Some? {
      RouteUidsSeen(s, ws, op, now, next, b.routeUid.value);
      RouteUidStays(ws, op, b, b.routeUid.value);
      SameScopeId(b, now, next);
    }
    if b.scope == ClusterScope && b.clusterUid.Some? {
      ClusterUidsSeen(s, ws, op, now, next, b.clusterUid.value);
      ClusterUidStays(ws, op, b, b.clusterUid.value);
      SameScopeId(b, now, next);
    }
  }

  lemma SameScopeId(b: BindingEntity, now: Surroundings, next: Surroundings)
    requires b.routeUid.Some? && b.scope == RouteScope ==> At(now.routeUids, b.routeUid.value) == At(next.routeUids, b.routeUid.value)
    requires b.clusterUid.Some? && b.scope == ClusterScope ==>
               At(now.clusterUids, b.clusterUid.value) == At(next.clusterUids, b.clusterUid.value)
    ensures ScopeIdOf(b, now) == ScopeIdOf(b, next)
  {
  }

  lemma RouteUidStays(ws: WorkingSet, op: Op, b: BindingEntity, uid: Uid)
    requires Inv(ws) && Renames(op) && Perform(ws, op).1.Accepted? && !OfRenamed(ws, op, b)
    requires b.scope == RouteScope && b.routeUid == Some(uid)
    ensures RouteIdOf(Apply(ws, op), uid) == RouteIdOf(ws, uid)
  {
    if op.OpRenameRoute? {
      RouteRenameMoves(ws, op, uid);
    } else {
      ClusterRenameKeepsRoutes(ws, op, uid);
    }
  }

  lemma ClusterUidStays(ws: WorkingSet, op: Op, b: BindingEntity, uid: Uid)
    requires Inv(ws) && Renames(op) && Perform(ws, op).1.Accepted? && !OfRenamed(ws, op, b)
    requires b.scope == ClusterScope && b.clusterUid == Some(uid)
    ensures ClusterIdOf(Apply(ws, op), uid) == ClusterIdOf(ws, uid)
  {
    if op.OpRenameCluster? {
      ClusterRenameMoves(ws, op, uid);
    } else {
      RouteRenameMoves(ws, op, uid);
    }
  }

  /** The old id is not published any more, the new one is. */
  lemma ClusterIdsAfter(ws: WorkingSet, op: Op)
    requires Inv(ws) && op.OpRenameCluster? && Perform(ws, op).1.Accepted?
    ensures op.oldId !in ClusterIds(Apply(ws, op).clusters) && op.newId in ClusterIds(Apply(ws, op).clusters)
  {
    RenameLookup(ws, op.oldId, op.newId, op.destinations, op.policy, op.health, op.source, op.createdBy);
    assert FindCluster(Apply(ws, op).clusters, op.oldId).None?;
    assert FindCluster(Apply(ws, op).clusters, op.newId).value in Apply(ws, op).clusters;
  }

  lemma RouteIdsAfter(ws: WorkingSet, op: Op)
    requires Inv(ws) && op.OpRenameRoute? && Perform(ws, op).1.Accepted?
    ensures op.oldId !in RouteIds(PublishedRoutes(Apply(ws, op).routes)) && op.newId in RouteIds(PublishedRoutes(Apply(ws, op).routes))
  {
    KeepsInvariantIff(ws, op);
    RenameRouteIs(ws, op.oldId, op.newId, op.changes, op.source, op.createdBy, op.newId);
    PublishedIds(Apply(ws, op).routes, op.oldId);
    PublishedIds(Apply(ws, op).routes, op.newId);
  }

  lemma RenamedClusterResolves(s: Store, ws: WorkingSet, op: Op, b: BindingEntity, now: Surroundings, next: Surroundings)
    requires Inv(ws) && Agrees(s, ws) && op.OpRenameCluster? && Perform(ws, op).1.Accepted? && OfRenamed(ws, op, b)
    requires Reads(now, s, Apply(ws, op)) && Reads(next, SaveAfter(s, ws, op), Apply(ws, op))
    ensures ScopeIdOf(b, now) == op.oldId && !HasTarget(ToSnapshot(b, now), now)
    ensures ScopeIdOf(b, next) == op.newId && HasTarget(ToSnapshot(b, next), next)
  {
    var uid := b.clusterUid.value;
    ClusterRenameMoves(ws, op, uid);
    FindMember(ws.clusters, ClusterUidOf, FindCluster(ws.clusters, op.oldId).value);
    ClusterUidsSeen(s, ws, op, now, next, uid);
    assert At(now.clusterUids, uid) == Some(op.oldId) && At(next.clusterUids, uid) == Some(op.newId);
    ClusterIdsAfter(ws, op);
  }

  lemma RenamedRouteResolves(s: Store, ws: WorkingSet, op: Op, b: BindingEntity, now: Surroundings, next: Surroundings)
    requires Inv(ws) && Agrees(s, ws) && op.OpRenameRoute? && Perform(ws, op).1.Accepted? && OfRenamed(ws, op, b)
    requires Reads(now, s, Apply(ws, op)) && Reads(next, SaveAfter(s, ws, op), Apply(ws, op))
    ensures ScopeIdOf(b, now) == op.oldId && !HasTarget(ToSnapshot(b, now), now)
    ensures ScopeIdOf(b, next) == op.newId && HasTarget(ToSnapshot(b, next), next)
  {
    var uid := b.routeUid.value;
    RouteRenameMoves(ws, op, uid);
    FindMember(ws.routes, RouteUidOf, FindRoute(ws.routes, op.oldId).value);
    RouteUidsSeen(s, ws, op, now, next, uid);
    assert At(now.routeUids, uid) == Some(op.oldId) && At(next.routeUids, uid) == Some(op.newId);
    RouteIdsAfter(ws, op);
  }

  /**
    A binding is in the snapshot a rename publishes exactly as it is in the next one, unless
    it is an enabled one of an active plugin that has recorded the uid of what was renamed:
    such a binding is missing from the first and stands under the new id in the next.
   */
  lemma BindingLostAtRenameIff(s: Store, ws: WorkingSet, op: Op, b: BindingEntity, now: Surroundings, next: Surroundings)
    requires Inv(ws) && Agrees(s, ws) && Renames(op) && Perform(ws, op).1.Accepted?
    requires Reads(now, s, Apply(ws, op)) && Reads(next, SaveAfter(s, ws, op), Apply(ws, op)) && now.active == next.active
    ensures Select([b], now) == Select([b], next) <==> !(b.enabled && next.active(b.pluginId) && OfRenamed(ws, op, b))
    ensures OfRenamed(ws, op, b) ==> Select([b], now) == []
    ensures OfRenamed(ws, op, b) ==> ScopeIdOf(b, next) == op.newId && HasTarget(ToSnapshot(b, next), next)
  {
    SelectOne(b, now);
    SelectOne(b, next);
    if !OfRenamed(ws, op, b) {
      OthersResolveAlike(s, ws, op, b, now, next);
    } else if op.OpRenameCluster? {
      RenamedClusterResolves(s, ws, op, b, now, next);
    } else {
      RenamedRouteResolves(s, ws, op, b, now, next);
    }
  }

  // ----- the whole table -----

  function WithoutRenamed(table: seq<BindingEntity>, ws: WorkingSet, op: Op): seq<BindingEntity> {
    Filter(table, (b: BindingEntity) => !OfRenamed(ws, op, b))
  }

  lemma RenameDropsItsBinding(s: Store, ws: WorkingSet, op: Op, b: BindingEntity, now: Surroundings, next: Surroundings)
    requires Inv(ws) && Agrees(s, ws) && Renames(op) && Perform(ws, op).1.Accepted?
    requires Reads(now, s, Apply(ws, op)) && Reads(next, SaveAfter(s, ws, op), Apply(ws, op)) && now.active == next.active
    ensures Select([b], now) == Select(WithoutRenamed([b], ws, op), next)
  {
    BindingLostAtRenameIff(s, ws, op, b, now, next);
    FilterOne(b, (b: BindingEntity) => !OfRenamed(ws, op, b));
  }

  lemma WithoutRenamedConcat(a: seq<BindingEntity>, b: seq<BindingEntity>, ws: WorkingSet, op: Op)
    ensures WithoutRenamed(a + b, ws, op) == WithoutRenamed(a, ws, op) + WithoutRenamed(b, ws, op)
  {
    FilterConcat(a, b, (b: BindingEntity) => !OfRenamed(ws, op, b));
  }

  /** The snapshot a rename publishes is the next one's, of the binding table without those of what was renamed. */
  lemma {:induction false} RenameDropsItsBindings(s: Store, ws: WorkingSet, op: Op, table: seq<BindingEntity>, now: Surroundings, next: Surroundings)
    requires Inv(ws) && Agrees(s, ws) && Renames(op) && Perform(ws, op).1.Accepted?
    requires Reads(now, s, Apply(ws, op)) && Reads(next, SaveAfter(s, ws, op), Apply(ws, op)) && now.active == next.active
    ensures Select(table, now) == Select(WithoutRenamed(table, ws, op), next)
    decreases |table|
  {
    if table != [] {
      var n := |table| - 1;
      var init, b := table[..n], table[n];
      RenameDropsItsBindings(s, ws, op, init, now, next);
      RenameDropsItsBinding(s, ws, op, b, now, next);
      assert table == init + [b];
      JoinsDropped(ws, op, init, b, now, next);
    }
  }

  lemma JoinsDropped(ws: WorkingSet, op: Op, init: seq<BindingEntity>, b: BindingEntity, now: Surroundings, next: Surroundings)
    requires Select(init, now) == Select(WithoutRenamed(init, ws, op), next)
    requires Select([b], now) == Select(WithoutRenamed([b], ws, op), next)
    ensures Select(init + [b], now) == Select(WithoutRenamed(init + [b], ws, op), next)
  {
    SelectConcat(init, [b], now);
    WithoutRenamedConcat(init, [b], ws, op);
    SelectConcat(WithoutRenamed(init, ws, op), WithoutRenamed([b], ws, op), next);
  }

  // ----- an example -----

  function RenameC(): Op {
    OpRenameCluster("c", "d", map[], None, None, "", None)
  }

  function Pair(): WorkingSet {
    TwoRoutesOneCluster(Some(0), map[])
  }

  function Seen(clusterUids: map<Uid, Id>): Surroundings {
    Surroundings({"r", "q"}, {"d"}, map[1 := "r", 2 := "q"], clusterUids, (p: string) => true)
  }

  lemma PairRenamed()
    ensures
      var after := Apply(Pair(), RenameC());
      && Perform(Pair(), RenameC()).1.Accepted? && Inv(Pair()) && Inv(after)
      && |after.routes| == 2 && after.routes[0].uid == 1 && after.routes[0].config.id == "r" && after.routes[0].enabled
      && after.routes[1].uid == 2 && after.routes[1].config.id == "q" && after.routes[1].enabled
      && |after.clusters| == 1 && after.clusters[0].uid == 0 && after.clusters[0].config.id == "d"
  {
    NamesAreNotBlank();
    TwoRoutesOneClusterInv(Some(0), map[]);
    assert !Blank("d") by {
      assert "d"[0] in "d";
    }
    assert "c"[0] != "d"[0];
    FindIs(Pair().clusters, ClusterKey, 0);
    KeepsInvariantIff(Pair(), RenameC());
  }

  lemma SeenTables(s: Store, ws: WorkingSet, clusterUids: map<Uid, Id>)
    requires Inv(ws) && Agrees(s, ws) && (ws == Pair() || ws == Apply(Pair(), RenameC()))
    requires clusterUids == map[0 := ws.clusters[0].config.id]
    ensures RouteTable(Seen(clusterUids).routeUids, s) && ClusterTable(clusterUids, s)
  {
    PairRenamed();
    var routeUids := Seen(clusterUids).routeUids;
    forall uid
      ensures At(routeUids, uid) == RouteIdOf(ws, uid) && At(clusterUids, uid) == ClusterIdOf(ws, uid)
    {
      SeenAt(ws, clusterUids, uid);
    }
    RouteTableIff(routeUids, s, ws);
    ClusterTableIff(clusterUids, s, ws);
  }

  lemma SeenAt(ws: WorkingSet, clusterUids: map<Uid, Id>, uid: Uid)
    requires ws == Pair() || ws == Apply(Pair(), RenameC())
    requires ws.clusters != [] && clusterUids == map[0 := ws.clusters[0].config.id]
    ensures At(Seen(clusterUids).routeUids, uid) == RouteIdOf(ws, uid) && At(clusterUids, uid) == ClusterIdOf(ws, uid)
  {
    PairRenamed();
    assert ws.routes == [ws.routes[0], ws.routes[1]] && ws.clusters == [ws.clusters[0]];
  }

  lemma SeenIds()
    ensures
      var after := Apply(Pair(), RenameC());
      RouteIds(PublishedRoutes(after.routes)) == {"r", "q"} && ClusterIds(after.clusters) == {"d"}
  {
    PairRenamed();
    var after := Apply(Pair(), RenameC());
    forall id
      ensures id in RouteIds(PublishedRoutes(after.routes)) <==> id in {"r", "q"}
    {
      PublishedIds(after.routes, id);
      assert after.routes == [after.routes[0], after.routes[1]];
    }
    assert after.clusters == [after.clusters[0]];
  }

  lemma SeenReads(s: Store, ws: WorkingSet, clusterUids: map<Uid, Id>)
    requires Inv(ws) && Agrees(s, ws) && (ws == Pair() || ws == Apply(Pair(), RenameC()))
    requires clusterUids == map[0 := ws.clusters[0].config.id]
    ensures Reads(Seen(clusterUids), s, Apply(Pair(), RenameC()))
  {
    SeenTables(s, ws, clusterUids);
    SeenIds();
  }

  lemma PairReads(s: Store)
    requires s == FullSave(NOTHING_SAVED, Pair()).store
    ensures Agrees(s, Pair()) && Reads(Seen(map[0 := "c"]), s, Apply(Pair(), RenameC()))
    ensures Reads(Seen(map[0 := "d"]), SaveAfter(s, Pair(), RenameC()), Apply(Pair(), RenameC()))
  {
    PairRenamed();
    NothingSavedGoes(Pair());
    SaveKeepsAgreementIff(s, Pair(), RenameC());
    SeenReads(s, Pair(), map[0 := "c"]);
    SeenReads(SaveAfter(s, Pair(), RenameC()), Apply(Pair(), RenameC()), map[0 := "d"]);
  }

  /** The pair of routes and their cluster, with one binding of the cluster, through a rename of it. */
  lemma BindingLostExample()
    ensures
      var s, b := FullSave(NOTHING_SAVED, Pair()).store, BindingEntity("b", "waf", ClusterScope, "c", None, Some(0), "", 0, true);
      var now, next := Seen(map[0 := "c"]), Seen(map[0 := "d"]);
      && Perform(Pair(), RenameC()).1.Accepted?
      && Reads(now, s, Apply(Pair(), RenameC())) && Reads(next, SaveAfter(s, Pair(), RenameC()), Apply(Pair(), RenameC()))
      && Select([b], now) == [] && Select([b], next) != []
  {
    var s, b := FullSave(NOTHING_SAVED, Pair()).store, BindingEntity("b", "waf", ClusterScope, "c", None, Some(0), "", 0, true);
    PairRenamed();
    PairReads(s);
    FindIs(Pair().clusters, ClusterKey, 0);
    BindingLostAtRenameIff(s, Pair(), RenameC(), b, Seen(map[0 := "c"]), Seen(map[0 := "d"]));
  }

  // ----- an example for routes -----

  function RenameR(): Op {
    OpRenameRoute("r", "s", RenameRequest(None, None, None, None), "", None)
  }

  function SeenRoutes(routeUids: map<Uid, Id>): Surroundings {
    Surroundings({"s", "q"}, {"c"}, routeUids, map[0 := "c"], (p: string) => true)
  }

  lemma PairRouteRenamed()
    ensures
      var after := Apply(Pair(), RenameR());
      && Perform(Pair(), RenameR()).1.Accepted? && Inv(Pair()) && Inv(after) && after.clusters == Pair().clusters
      && FindRoute(Pair().routes, "r") == Some(Pair().routes[0])
      && |after.routes| == 2 && after.routes[0].uid == 2 && after.routes[0].config.id == "q" && after.routes[0].enabled
      && after.routes[1].uid == 1 && after.routes[1].config.id == "s" && after.routes[1].enabled
  {
    PairRoutesMoved();
    KeepsInvariantIff(Pair(), RenameR());
  }

  lemma PairRoutesMoved()
    ensures
      var after := Apply(Pair(), RenameR());
      && Perform(Pair(), RenameR()).1.Accepted? && Inv(Pair()) && after.clusters == Pair().clusters
      && FindRoute(Pair().routes, "r") == Some(Pair().routes[0])
      && |after.routes| == 2 && after.routes[0].uid == 2 && after.routes[0].config.id == "q" && after.routes[0].enabled
      && after.routes[1].uid == 1 && after.routes[1].config.id == "s" && after.routes[1].enabled
  {
    NamesAreNotBlank();
    TwoRoutesOneClusterInv(Some(0), map[]);
    assert !Blank("s") by {
      assert "s"[0] in "s";
    }
    assert "r"[0] != "s"[0] && "q"[0] != "s"[0];
    FindIs(Pair().routes, RouteKey, 0);
    var i, r := RenameRouteShape(Pair(), "r", "s", RenameRequest(None, None, None, None), "", None);
    assert RemoveAt(Pair().routes, 0) + [r] == [Pair().routes[1], r];
  }

  lemma SeenRouteTables(s: Store, ws: WorkingSet, routeUids: map<Uid, Id>)
    requires Inv(ws) && Agrees(s, ws)
    requires (ws == Pair() && routeUids == map[1 := "r", 2 := "q"]) || (ws == Apply(Pair(), RenameR()) && routeUids == map[1 := "s", 2 := "q"])
    ensures RouteTable(routeUids, s) && ClusterTable(SeenRoutes(routeUids).clusterUids, s)
  {
    PairRouteRenamed();
    var clusterUids := SeenRoutes(routeUids).clusterUids;
    forall uid
      ensures At(routeUids, uid) == RouteIdOf(ws, uid) && At(clusterUids, uid) == ClusterIdOf(ws, uid)
    {
      assert ws.routes == [ws.routes[0], ws.routes[1]] && ws.clusters == [ws.clusters[0]];
    }
    RouteTableIff(routeUids, s, ws);
    ClusterTableIff(clusterUids, s, ws);
  }

  lemma SeenRouteIds()
    ensures
      var after := Apply(Pair(), RenameR());
      RouteIds(PublishedRoutes(after.routes)) == {"s", "q"} && ClusterIds(after.clusters) == {"c"}
  {
    PairRouteRenamed();
    var after := Apply(Pair(), RenameR());
    forall id
      ensures id in RouteIds(PublishedRoutes(after.routes)) <==> id in {"s", "q"}
    {
      PublishedIds(after.routes, id);
      assert after.routes == [after.routes[0], after.routes[1]];
    }
    assert after.clusters == [after.clusters[0]];
  }

  lemma PairRouteReads(s: Store)
    requires s == FullSave(NOTHING_SAVED, Pair()).store
    ensures Agrees(s, Pair()) && Reads(SeenRoutes(map[1 := "r", 2 := "q"]), s, Apply(Pair(), RenameR()))
    ensures Reads(SeenRoutes(map[1 := "s", 2 := "q"]), SaveAfter(s, Pair(), RenameR()), Apply(Pair(), RenameR()))
  {
    PairRouteRenamed();
    NothingSavedGoes(Pair());
    SaveKeepsAgreementIff(s, Pair(), RenameR());
    SeenRouteTables(s, Pair(), map[1 := "r", 2 := "q"]);
    SeenRouteTables(SaveAfter(s, Pair(), RenameR()), Apply(Pair(), RenameR()), map[1 := "s", 2 := "q"]);
    SeenRouteIds();
  }

  /** The same pair, with one binding of the first route, through a rename of that route. */
  lemma RouteBindingLostExample()
    ensures
      var s, b := FullSave(NOTHING_SAVED, Pair()).store, BindingEntity("b", "waf", RouteScope, "r", Some(1), None, "", 0, true);
      var now, next := SeenRoutes(map[1 := "r", 2 := "q"]), SeenRoutes(map[1 := "s", 2 := "q"]);
      && Perform(Pair(), RenameR()).1.Accepted?
      && Reads(now, s, Apply(Pair(), RenameR())) && Reads(next, SaveAfter(s, Pair(), RenameR()), Apply(Pair(), RenameR()))
      && Select([b], now) == [] && Select([b], next) != []
  {
    var s, b := FullSave(NOTHING_SAVED, Pair()).store, BindingEntity("b", "waf", RouteScope, "r", Some(1), None, "", 0, true);
    PairRouteRenamed();
    PairRouteReads(s);
    BindingLostAtRenameIff(s, Pair(), RenameR(), b, SeenRoutes(map[1 := "r", 2 := "q"]), SeenRoutes(map[1 := "s", 2 := "q"]));
  }
}
