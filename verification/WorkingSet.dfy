/**
  The dynamic configuration's working set as a value, and every operation on it as a
  function from one working set to the next. Ids are canonical: the code compares them
  case-insensitively. New records draw their uid from a supply that never repeats.
 */
module WorkingSet {
  import opened Wrappers
  import opened KeyedList
  import IpIsolation

  type Uid = nat

  type Transform = map<string, string>

  /** A destination's address, and the address its health is probed at when that is another one. */
  datatype Destination = Destination(address: string, health: Option<string>)

  type Destinations = map<string, Destination>

  /** What requests give: addresses by destination key. */
  type Addresses = map<string, string>

  /** A native cluster configuration; `advanced` stands for the fields no operation looks at. */
  datatype ClusterConfig = ClusterConfig(
    id: Id, destinations: Destinations, policy: Option<string>, health: Option<int>, metadata: Option<int>, advanced: int)

  datatype RouteConfig = RouteConfig(
    id: Id, clusterId: Option<Id>, path: Option<string>, order: Option<int>, transforms: seq<Transform>, advanced: int)

  datatype Cluster = Cluster(config: ClusterConfig, uid: Uid, health: Option<int>, source: string, createdBy: Option<string>)

  datatype Route = Route(
    config: RouteConfig, uid: Uid, clusterUid: Option<Uid>, enabled: bool, source: string, createdBy: Option<string>)

  datatype WorkingSet = WorkingSet(routes: seq<Route>, clusters: seq<Cluster>, version: nat, nextUid: Uid)

  datatype Reason = EmptyId | NoDestinations | NotFound | AlreadyExists | Referenced | SameId

  datatype OpResult = Accepted | Refused(reason: Reason)

  const MAX_ORDER: int := 0x7FFF_FFFF

  function ClusterKey(c: Cluster): Id { c.config.id }

  function RouteKey(r: Route): Id { r.config.id }

  predicate Blank(s: string) {
    IpIsolation.Blank(s)
  }

  function FindCluster(clusters: seq<Cluster>, id: Id): Option<Cluster> {
    Find(clusters, ClusterKey, id)
  }

  function FindRoute(routes: seq<Route>, id: Id): Option<Route> {
    Find(routes, RouteKey, id)
  }

  /** The uid of the cluster a route's cluster id names, if there is one. */
  function Resolve(clusters: seq<Cluster>, id: Option<Id>): Option<Uid> {
    if id.None? || Blank(id.value) then None
    else match FindCluster(clusters, id.value)
      case None => None
      case Some(c) => Some(c.uid)
  }

  predicate Names(r: Route, id: Id) {
    r.config.clusterId == Some(id)
  }

  function Commit(ws: WorkingSet): WorkingSet {
    ws.(version := ws.version + 1)
  }

  // ----- transforms -----

  const X_FORWARDED := "X-Forwarded"

  /** Upper case of ASCII letters; the four action names are compared without regard to case. */
  function Upper(s: string): string {
    seq(|s|, i requires 0 <= i < |s| => if 'a' <= s[i] <= 'z' then s[i] - 32 as char else s[i])
  }

  predicate BadTransform(t: Transform) {
    X_FORWARDED in t && !Blank(t[X_FORWARDED]) && Upper(t[X_FORWARDED]) !in ["SET", "APPEND", "REMOVE", "RANDOM"]
  }

  function NormalizeTransforms(c: RouteConfig): RouteConfig {
    c.(transforms := seq(|c.transforms|, i requires 0 <= i < |c.transforms| =>
        if BadTransform(c.transforms[i]) then map[X_FORWARDED := "Set"] else c.transforms[i]))
  }

  function NormalizeAll(routes: seq<Route>): seq<Route> {
    seq(|routes|, i requires 0 <= i < |routes| => routes[i].(config := NormalizeTransforms(routes[i].config)))
  }

  function Plain(addresses: Addresses): Destinations {
    map key | key in addresses :: Destination(addresses[key], None)
  }

  function WithOrder(c: RouteConfig): RouteConfig {
    if c.order.None? then c.(order := Some(MAX_ORDER)) else c
  }

  // ----- cluster manager -----

  function Retagged(c: Cluster, source: string, createdBy: Option<string>): Cluster {
    if source != "" && source != c.source then c.(source := source, createdBy := createdBy) else c
  }

  /** Adds a cluster, or overwrites the first record with its id. */
  function PutCluster(ws: WorkingSet, config: ClusterConfig, health: Option<int>, keepHealth: bool, source: string,
                      createdBy: Option<string>, retag: bool): WorkingSet
  {
    var i := IndexOf(ws.clusters, ClusterKey, config.id);
    if i < |ws.clusters| then
      var c := ws.clusters[i].(config := config, health := if keepHealth then ws.clusters[i].health else health);
      ws.(clusters := ws.clusters[i := if retag then Retagged(c, source, createdBy) else c])
    else
      ws.(clusters := ws.clusters + [Cluster(config, ws.nextUid, health, source, createdBy)], nextUid := ws.nextUid + 1)
  }

  function AddClusterConfig(ws: WorkingSet, config: ClusterConfig, source: string, createdBy: Option<string>): (WorkingSet, OpResult) {
    if Blank(config.id) then (ws, Refused(EmptyId))
    else if |config.destinations| == 0 then (ws, Refused(NoDestinations))
    else (Commit(PutCluster(ws, config, None, true, source, createdBy, true)), Accepted)
  }

  function AddCluster(ws: WorkingSet, id: Id, destinations: Addresses, policy: Option<string>, health: Option<int>,
                      source: string, createdBy: Option<string>, metadata: Option<int>): (WorkingSet, OpResult)
  {
    if Blank(id) then (ws, Refused(EmptyId))
    else if |destinations| == 0 then (ws, Refused(NoDestinations))
    else
      var i := IndexOf(ws.clusters, ClusterKey, id);
      var kept := if metadata.None? && i < |ws.clusters| then ws.clusters[i].config.metadata else metadata;
      (Commit(PutCluster(ws, ClusterConfig(id, Plain(destinations), policy, health, kept, 0), health, false, source, createdBy, true)),
       Accepted)
  }

  function CreateCluster(ws: WorkingSet, id: Id, destinations: Addresses, policy: Option<string>, health: Option<int>,
                         source: string, createdBy: Option<string>): (WorkingSet, OpResult)
  {
    if FindCluster(ws.clusters, id).Some? then (ws, Refused(AlreadyExists))
    else
      var config := ClusterConfig(id, Plain(destinations), policy, health, None, 0);
      (Commit(ws.(clusters := ws.clusters + [Cluster(config, ws.nextUid, health, source, createdBy)], nextUid := ws.nextUid + 1)),
       Accepted)
  }

  function UpdateCluster(ws: WorkingSet, id: Id, destinations: Option<Addresses>, policy: Option<string>, health: Option<int>)
    : (WorkingSet, OpResult)
  {
    if Blank(id) then (ws, Refused(EmptyId))
    else
      var i := IndexOf(ws.clusters, ClusterKey, id);
      if i == |ws.clusters| then (ws, Refused(NotFound))
      else
        var c := ws.clusters[i];
        var config := c.config.(
          destinations := if destinations.Some? then Plain(destinations.value) else c.config.destinations,
          policy := if policy.Some? then policy else c.config.policy,
          health := if health.Some? then health else c.config.health);
        (Commit(ws.(clusters := ws.clusters[i := c.(config := config, health := if health.Some? then health else c.health)])),
         Accepted)
  }

  function RemoveCluster(ws: WorkingSet, id: Id): (WorkingSet, OpResult) {
    if Blank(id) then (ws, Refused(EmptyId))
    else if exists r :: r in ws.routes && Names(r, id) then (ws, Refused(Referenced))
    else
      var i := IndexOf(ws.clusters, ClusterKey, id);
      if i == |ws.clusters| then (ws, Refused(NotFound))
      else (Commit(ws.(clusters := RemoveAt(ws.clusters, i))), Accepted)
  }

  function Redirected(routes: seq<Route>, oldId: Id, newId: Id, uid: Uid): seq<Route> {
    seq(|routes|, i requires 0 <= i < |routes| =>
      if Names(routes[i], oldId) then
        routes[i].(clusterUid := Some(uid), config := routes[i].config.(clusterId := Some(newId)))
      else routes[i])
  }

  function RenameRefusal(ws: WorkingSet, oldId: Id, newId: Id): Option<Reason> {
    if Blank(oldId) || Blank(newId) then Some(EmptyId)
    else if oldId == newId then Some(SameId)
    else if FindCluster(ws.clusters, oldId).None? then Some(NotFound)
    else if FindCluster(ws.clusters, newId).Some? then Some(AlreadyExists)
    else None
  }

  function Renamed(c: Cluster, newId: Id, destinations: Addresses, policy: Option<string>, health: Option<int>,
                   source: string, createdBy: Option<string>): Cluster
  {
    Cluster(c.config.(id := newId,
                      destinations := if |destinations| > 0 then Plain(destinations) else c.config.destinations,
                      policy := if policy.Some? then policy else c.config.policy,
                      health := if health.Some? then health else c.config.health),
            c.uid, if health.Some? then health else c.health, source, createdBy)
  }

  /** The record moves to the end of the list under its new id, and the routes that named the old one follow. */
  function RenameCluster(ws: WorkingSet, oldId: Id, newId: Id, destinations: Addresses, policy: Option<string>,
                         health: Option<int>, source: string, createdBy: Option<string>): (WorkingSet, OpResult)
  {
    match RenameRefusal(ws, oldId, newId)
    case Some(reason) => (ws, Refused(reason))
    case None =>
      var i := IndexOf(ws.clusters, ClusterKey, oldId);
      var renamed := Renamed(ws.clusters[i], newId, destinations, policy, health, source, createdBy);
      (Commit(ws.(clusters := RemoveAt(ws.clusters, i) + [renamed],
                  routes := Redirected(ws.routes, oldId, newId, renamed.uid))),
       Accepted)
  }

  // ----- route manager -----

  datatype RegisterRequest = RegisterRequest(
    routeName: Id, clusterName: Id, path: string, address: string, order: Option<int>, transforms: seq<Transform>,
    clientIp: Option<string>, useIpIsolation: bool)

  function RetaggedRoute(r: Route, source: string, createdBy: Option<string>): Route {
    if source != "" && source != r.source then r.(source := source, createdBy := createdBy) else r
  }

  /** Adds a new route or edits the first one with the id; either way it resolves its cluster now. */
  function PutRoute(ws: WorkingSet, config: RouteConfig, source: string, createdBy: Option<string>, retag: bool): WorkingSet {
    var i := IndexOf(ws.routes, RouteKey, config.id);
    var clusterUid := Resolve(ws.clusters, config.clusterId);
    if i < |ws.routes| then
      var r := ws.routes[i].(config := config, clusterUid := clusterUid);
      ws.(routes := ws.routes[i := if retag then RetaggedRoute(r, source, createdBy) else r])
    else
      ws.(routes := ws.routes + [Route(config, ws.nextUid, clusterUid, true, source, createdBy)], nextUid := ws.nextUid + 1)
  }

  predicate Isolated(request: RegisterRequest) {
    request.useIpIsolation && request.clientIp.Some? && !Blank(request.clientIp.value)
  }

  function NewClusterFor(request: RegisterRequest): ClusterConfig {
    var key := if Isolated(request) then IpIsolation.GetDestinationKey(request.clientIp.value) else "d1";
    ClusterConfig(request.clusterName, map[key := Destination(request.address, None)],
                  if Isolated(request) then Some(IpIsolation.IP_BASED) else None, None, None, 0)
  }

  function RequestedRoute(request: RegisterRequest): RouteConfig {
    RouteConfig(request.routeName, Some(request.clusterName), Some(request.path),
                Some(if request.order.Some? then request.order.value else MAX_ORDER), request.transforms, 0)
  }

  /** A registration creates its cluster, or gives a known one its address under the plain key. */
  function RegisterCluster(ws: WorkingSet, request: RegisterRequest, source: string, createdBy: Option<string>): WorkingSet {
    var i := IndexOf(ws.clusters, ClusterKey, request.clusterName);
    if i == |ws.clusters| then
      ws.(clusters := ws.clusters + [Cluster(NewClusterFor(request), ws.nextUid, None, source, createdBy)], nextUid := ws.nextUid + 1)
    else if !Blank(request.address) && !request.useIpIsolation then
      var c := ws.clusters[i];
      ws.(clusters := ws.clusters[i :=
          c.(config := c.config.(destinations := c.config.destinations["d1" := Destination(request.address, None)]))])
    else ws
  }

  /** The route resolves its cluster before the registration creates it. */
  function AddRoute(ws: WorkingSet, request: RegisterRequest, source: string, createdBy: Option<string>): (WorkingSet, OpResult) {
    var placed := PutRoute(ws, RequestedRoute(request), source, createdBy, true);
    (Commit(RegisterCluster(placed, request, source, createdBy)), Accepted)
  }

  function AddRouteConfig(ws: WorkingSet, config: RouteConfig, source: string, createdBy: Option<string>): (WorkingSet, OpResult) {
    if Blank(config.id) || config.clusterId.None? || Blank(config.clusterId.value) then (ws, Refused(EmptyId))
    else
      var ws1 := PutRoute(ws, config, source, createdBy, true);
      (Commit(ws1.(routes := NormalizeAll(ws1.routes))), Accepted)
  }

  /** Takes a client's destination from a cluster, and the cluster with its last destination. */
  function DropDestination(clusters: seq<Cluster>, id: Id, clientIp: string): seq<Cluster> {
    var i, key := IndexOf(clusters, ClusterKey, id), IpIsolation.GetDestinationKey(clientIp);
    if i == |clusters| || key !in clusters[i].config.destinations then clusters
    else
      var rest := clusters[i].config.destinations - {key};
      if |rest| == 0 then Without(clusters, ClusterKey, id)
      else clusters[i := clusters[i].(config := clusters[i].config.(destinations := rest))]
  }

  predicate ForClient(clientIp: Option<string>) {
    clientIp.Some? && !Blank(clientIp.value)
  }

  /** The clusters once a route that names one of them is gone. */
  function ClustersWithout(clusters: seq<Cluster>, left: seq<Route>, id: Option<Id>, clientIp: Option<string>,
                           removeOrphanedCluster: bool): seq<Cluster>
  {
    if id.None? then clusters
    else if ForClient(clientIp) then DropDestination(clusters, id.value, clientIp.value)
    else if removeOrphanedCluster && !(exists x :: x in left && Names(x, id.value)) then Without(clusters, ClusterKey, id.value)
    else clusters
  }

  /** With a client address only that client's destination goes; otherwise the cluster goes with its last route. */
  function RemoveRoute(ws: WorkingSet, name: Id, clientIp: Option<string>, removeOrphanedCluster: bool): (WorkingSet, OpResult) {
    if Blank(name) then (ws, Refused(EmptyId))
    else match FindRoute(ws.routes, name)
      case None => (ws, Refused(NotFound))
      case Some(r) =>
        var routes := Without(ws.routes, RouteKey, name);
        (Commit(ws.(routes := routes,
                    clusters := ClustersWithout(ws.clusters, routes, r.config.clusterId, clientIp, removeOrphanedCluster))),
         Accepted)
  }

  function SetRouteEnabled(ws: WorkingSet, id: Id, enabled: bool): (WorkingSet, OpResult) {
    if Blank(id) then (ws, Refused(EmptyId))
    else
      var i := IndexOf(ws.routes, RouteKey, id);
      if i == |ws.routes| then (ws, Refused(NotFound))
      else (Commit(ws.(routes := ws.routes[i := ws.routes[i].(enabled := enabled)])), Accepted)
  }

  datatype RenameRequest = RenameRequest(
    clusterName: Option<Id>, path: Option<string>, order: Option<int>, transforms: Option<seq<Transform>>)

  function RouteRenameRefusal(ws: WorkingSet, oldId: Id, newId: Id): Option<Reason> {
    if Blank(oldId) || Blank(newId) then Some(EmptyId)
    else if oldId == newId then Some(SameId)
    else if FindRoute(ws.routes, oldId).None? then Some(NotFound)
    else if FindRoute(ws.routes, newId).Some? then Some(AlreadyExists)
    else None
  }

  function RenamedConfig(c: RouteConfig, newId: Id, request: RenameRequest): RouteConfig {
    c.(id := newId,
       clusterId := if request.clusterName.Some? then request.clusterName else c.clusterId,
       path := if request.path.Some? then request.path else c.path,
       order := if request.order.Some? then request.order else c.order,
       transforms := if request.transforms.Some? then request.transforms.value else c.transforms)
  }

  /** The renamed route is a new record: it keeps the uid but not the enabled flag. */
  function RenameRoute(ws: WorkingSet, oldId: Id, newId: Id, request: RenameRequest, source: string, createdBy: Option<string>)
    : (WorkingSet, OpResult)
  {
    match RouteRenameRefusal(ws, oldId, newId)
    case Some(reason) => (ws, Refused(reason))
    case None =>
      var r := FindRoute(ws.routes, oldId).value;
      var config := RenamedConfig(r.config, newId, request);
      var renamed := Route(config, r.uid, Resolve(ws.clusters, config.clusterId), true, source, createdBy);
      (Commit(ws.(routes := Without(ws.routes, RouteKey, oldId) + [renamed])), Accepted)
  }

  // ----- batch operations -----

  function ImportClusters(ws: WorkingSet, clusters: seq<ClusterConfig>, source: string, createdBy: Option<string>): WorkingSet
    decreases |clusters|
  {
    if clusters == [] then ws
    else
      var n := |clusters| - 1;
      PutCluster(ImportClusters(ws, clusters[..n], source, createdBy), clusters[n], None, true, source, createdBy, false)
  }

  function ImportRoutes(ws: WorkingSet, routes: seq<RouteConfig>, source: string, createdBy: Option<string>): WorkingSet
    decreases |routes|
  {
    if routes == [] then ws
    else
      var n := |routes| - 1;
      PutRoute(ImportRoutes(ws, routes[..n], source, createdBy), WithOrder(routes[n]), source, createdBy, false)
  }

  function ImportBatch(ws: WorkingSet, clusters: seq<ClusterConfig>, routes: seq<RouteConfig>,
                       source: string, createdBy: Option<string>): WorkingSet
  {
    if clusters == [] && routes == [] then ws
    else
      var imported := ImportRoutes(ImportClusters(ws, clusters, source, createdBy), routes, source, createdBy);
      Commit(imported.(routes := NormalizeAll(imported.routes)))
  }

  /** The cluster ids routes name, blank ones left out. */
  function ReferencedIds(routes: seq<Route>): set<Id> {
    set r | r in routes && r.config.clusterId.Some? && !Blank(r.config.clusterId.value) :: r.config.clusterId.value
  }

  /** A cluster goes unless its id is blank, referenced or unknown. */
  function DeleteCluster(clusters: seq<Cluster>, id: Id, referenced: set<Id>): (seq<Cluster>, bool) {
    var i := IndexOf(clusters, ClusterKey, id);
    if Blank(id) || id in referenced || i == |clusters| then (clusters, false) else (RemoveAt(clusters, i), true)
  }

  /** The deletions before the last id, then that of the last id. */
  function DeleteClusters(clusters: seq<Cluster>, ids: seq<Id>, referenced: set<Id>): (seq<Cluster>, seq<bool>)
    decreases |ids|
  {
    if ids == [] then (clusters, [])
    else
      var n := |ids| - 1;
      var (before, flags) := DeleteClusters(clusters, ids[..n], referenced);
      var (left, deleted) := DeleteCluster(before, ids[n], referenced);
      (left, flags + [deleted])
  }

  function BatchDeleteClusters(ws: WorkingSet, ids: seq<Id>): (WorkingSet, seq<bool>) {
    var (left, flags) := DeleteClusters(ws.clusters, ids, ReferencedIds(ws.routes));
    (if true in flags then Commit(ws.(clusters := left)) else ws, flags)
  }

  /** The state of the route deletion loop. */
  datatype Deletion = Deletion(routes: seq<Route>, flags: seq<bool>, removedClusterIds: seq<Id>, survivors: set<Id>)

  /** One round of the loop: the survivors are added up as of each deletion, not as of the last. */
  function DeleteRoute(d: Deletion, id: Id): Deletion {
    var i := IndexOf(d.routes, RouteKey, id);
    if Blank(id) || i == |d.routes| then d.(flags := d.flags + [false])
    else
      var left, clusterId := RemoveAt(d.routes, i), d.routes[i].config.clusterId;
      if clusterId.None? || Blank(clusterId.value) then d.(routes := left, flags := d.flags + [true])
      else
        Deletion(left, d.flags + [true],
                 if clusterId.value in d.removedClusterIds then d.removedClusterIds else d.removedClusterIds + [clusterId.value],
                 d.survivors + ReferencedIds(left))
  }

  function DeleteRoutes(routes: seq<Route>, ids: seq<Id>): Deletion
    decreases |ids|
  {
    if ids == [] then Deletion(routes, [], [], {})
    else DeleteRoute(DeleteRoutes(routes, ids[..|ids| - 1]), ids[|ids| - 1])
  }

  function RemoveOrphan(clusters: seq<Cluster>, orphan: Id, survivors: set<Id>): seq<Cluster> {
    var i := IndexOf(clusters, ClusterKey, orphan);
    if orphan in survivors || i == |clusters| then clusters else RemoveAt(clusters, i)
  }

  /** Clusters the deletion removed a route of and that are not among the survivors. */
  function RemoveOrphans(clusters: seq<Cluster>, orphans: seq<Id>, survivors: set<Id>): seq<Cluster>
    decreases |orphans|
  {
    if orphans == [] then clusters
    else RemoveOrphan(RemoveOrphans(clusters, orphans[..|orphans| - 1], survivors), orphans[|orphans| - 1], survivors)
  }

  function BatchDeleteRoutes(ws: WorkingSet, ids: seq<Id>, removeOrphanedClusters: bool): (WorkingSet, seq<bool>) {
    if ids == [] then (ws, [])
    else
      var d := DeleteRoutes(ws.routes, ids);
      var clusters := if removeOrphanedClusters then RemoveOrphans(ws.clusters, d.removedClusterIds, d.survivors) else ws.clusters;
      (Commit(ws.(routes := d.routes, clusters := clusters)), d.flags)
  }

  function EnableRoute(routes: seq<Route>, id: Id, enabled: bool): (seq<Route>, bool) {
    var i := IndexOf(routes, RouteKey, id);
    if Blank(id) || i == |routes| then (routes, false) else (routes[i := routes[i].(enabled := enabled)], true)
  }

  function EnableRoutes(routes: seq<Route>, ids: seq<Id>, enabled: bool): (seq<Route>, seq<bool>)
    decreases |ids|
  {
    if ids == [] then (routes, [])
    else
      var n := |ids| - 1;
      var (before, flags) := EnableRoutes(routes, ids[..n], enabled);
      var (left, found) := EnableRoute(before, ids[n], enabled);
      (left, flags + [found])
  }

  function BatchSetRoutesEnabled(ws: WorkingSet, ids: seq<Id>, enabled: bool): (WorkingSet, seq<bool>) {
    var (routes, flags) := EnableRoutes(ws.routes, ids, enabled);
    (if true in flags then Commit(ws.(routes := routes)) else ws, flags)
  }

  // ----- replacing everything -----

  /** A known id keeps its record, with the configuration given. */
  function ReplaceCluster(known: seq<Cluster>, done: seq<Cluster>, nextUid: Uid, config: ClusterConfig, source: string,
                          createdBy: Option<string>): (seq<Cluster>, Uid)
  {
    match FindCluster(known, config.id)
    case Some(c) => (done + [c.(config := config)], nextUid)
    case None => (done + [Cluster(config, nextUid, None, source, createdBy)], nextUid + 1)
  }

  function ReplaceClusters(known: seq<Cluster>, clusters: seq<ClusterConfig>, source: string, createdBy: Option<string>, nextUid: Uid)
    : (r: (seq<Cluster>, Uid))
    ensures |r.0| == |clusters| && r.1 >= nextUid
    decreases |clusters|
  {
    if clusters == [] then ([], nextUid)
    else
      var n := |clusters| - 1;
      var (done, uid) := ReplaceClusters(known, clusters[..n], source, createdBy, nextUid);
      ReplaceCluster(known, done, uid, clusters[n], source, createdBy)
  }

  function ReplaceRoute(known: seq<Route>, done: seq<Route>, nextUid: Uid, config: RouteConfig, clusterUid: Option<Uid>,
                        source: string, createdBy: Option<string>): (seq<Route>, Uid)
  {
    match FindRoute(known, config.id)
    case Some(r) => (done + [r.(config := config, clusterUid := clusterUid)], nextUid)
    case None => (done + [Route(config, nextUid, clusterUid, true, source, createdBy)], nextUid + 1)
  }

  function ReplaceRoutes(known: seq<Route>, clusters: seq<Cluster>, routes: seq<RouteConfig>, source: string,
                         createdBy: Option<string>, nextUid: Uid): (r: (seq<Route>, Uid))
    ensures |r.0| == |routes| && r.1 >= nextUid
    decreases |routes|
  {
    if routes == [] then ([], nextUid)
    else
      var n := |routes| - 1;
      var (done, uid) := ReplaceRoutes(known, clusters, routes[..n], source, createdBy, nextUid);
      ReplaceRoute(known, done, uid, WithOrder(routes[n]), Resolve(clusters, routes[n].clusterId), source, createdBy)
  }

  function ReplaceAll(ws: WorkingSet, routes: seq<RouteConfig>, clusters: seq<ClusterConfig>, source: string, createdBy: Option<string>)
    : WorkingSet
  {
    var (cs, uid) := ReplaceClusters(ws.clusters, clusters, source, createdBy, ws.nextUid);
    var (rs, uid') := ReplaceRoutes(ws.routes, cs, routes, source, createdBy, uid);
    Commit(ws.(clusters := cs, routes := rs, nextUid := uid'))
  }

  // ----- all operations -----

  datatype Op =
    | OpAddClusterConfig(config: ClusterConfig, source: string, createdBy: Option<string>)
    | OpAddCluster(id: Id, destinations: Addresses, policy: Option<string>, health: Option<int>, source: string,
                   createdBy: Option<string>, metadata: Option<int>)
    | OpCreateCluster(id: Id, destinations: Addresses, policy: Option<string>, health: Option<int>, source: string,
                      createdBy: Option<string>)
    | OpUpdateCluster(id: Id, newDestinations: Option<Addresses>, policy: Option<string>, health: Option<int>)
    | OpRemoveCluster(id: Id)
    | OpRenameCluster(oldId: Id, newId: Id, destinations: Addresses, policy: Option<string>, health: Option<int>,
                      source: string, createdBy: Option<string>)
    | OpAddRoute(request: RegisterRequest, source: string, createdBy: Option<string>)
    | OpAddRouteConfig(route: RouteConfig, source: string, createdBy: Option<string>)
    | OpRemoveRoute(id: Id, clientIp: Option<string>, removeOrphanedCluster: bool)
    | OpSetRouteEnabled(id: Id, enabled: bool)
    | OpRenameRoute(oldId: Id, newId: Id, changes: RenameRequest, source: string, createdBy: Option<string>)
    | OpImportBatch(clusters: seq<ClusterConfig>, routes: seq<RouteConfig>, source: string, createdBy: Option<string>)
    | OpBatchDeleteClusters(ids: seq<Id>)
    | OpBatchDeleteRoutes(ids: seq<Id>, removeOrphanedClusters: bool)
    | OpBatchSetRoutesEnabled(ids: seq<Id>, enabled: bool)
    | OpReplaceAll(routes: seq<RouteConfig>, clusters: seq<ClusterConfig>, source: string, createdBy: Option<string>)

  /** The working set after an operation, and its answer; batch operations always answer. */
  function Perform(ws: WorkingSet, op: Op): (WorkingSet, OpResult) {
    match op
    case OpAddClusterConfig(config, source, who) => AddClusterConfig(ws, config, source, who)
    case OpAddCluster(id, dests, policy, health, source, who, metadata) =>
      AddCluster(ws, id, dests, policy, health, source, who, metadata)
    case OpCreateCluster(id, dests, policy, health, source, who) => CreateCluster(ws, id, dests, policy, health, source, who)
    case OpUpdateCluster(id, dests, policy, health) => UpdateCluster(ws, id, dests, policy, health)
    case OpRemoveCluster(id) => RemoveCluster(ws, id)
    case OpRenameCluster(oldId, newId, dests, policy, health, source, who) =>
      RenameCluster(ws, oldId, newId, dests, policy, health, source, who)
    case OpAddRoute(request, source, who) => AddRoute(ws, request, source, who)
    case OpAddRouteConfig(route, source, who) => AddRouteConfig(ws, route, source, who)
    case OpRemoveRoute(id, ip, orphan) => RemoveRoute(ws, id, ip, orphan)
    case OpSetRouteEnabled(id, enabled) => SetRouteEnabled(ws, id, enabled)
    case OpRenameRoute(oldId, newId, request, source, who) => RenameRoute(ws, oldId, newId, request, source, who)
    case OpImportBatch(clusters, routes, source, who) => (ImportBatch(ws, clusters, routes, source, who), Accepted)
    case OpBatchDeleteClusters(ids) => (BatchDeleteClusters(ws, ids).0, Accepted)
    case OpBatchDeleteRoutes(ids, orphans) => (BatchDeleteRoutes(ws, ids, orphans).0, Accepted)
    case OpBatchSetRoutesEnabled(ids, enabled) => (BatchSetRoutesEnabled(ws, ids, enabled).0, Accepted)
    case OpReplaceAll(routes, clusters, source, who) => (ReplaceAll(ws, routes, clusters, source, who), Accepted)
  }

  function Apply(ws: WorkingSet, op: Op): WorkingSet {
    Perform(ws, op).0
  }

  function ApplyAll(ws: WorkingSet, ops: seq<Op>): WorkingSet
    decreases |ops|
  {
    if ops == [] then ws else ApplyAll(Apply(ws, ops[0]), ops[1..])
  }
}
