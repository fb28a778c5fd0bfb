/**
  Registration as it runs, through the route operations rather than the cluster helpers:
  what it keeps of a cluster, and which client's address it stores.
 */
module LiveRegistration {
  import opened Wrappers
  import opened KeyedList
  import opened WorkingSet
  import opened WorkingSetInvariant
  import opened WorkingSetTheorems
  import IpIsolation

  // ----- what stays of a cluster -----

  /** The same record but for its destinations. */
  predicate SameButDestinations(c: Cluster, c': Cluster) {
    c' == c.(config := c.config.(destinations := c'.config.destinations))
  }

  /** A registration keeps every cluster, with its policy, health checks and metadata. */
  lemma RegistrationKeepsFields(ws: WorkingSet, request: RegisterRequest, source: string, createdBy: Option<string>, id: Id)
    requires Inv(ws) && FindCluster(ws.clusters, id).Some?
    ensures
      var after := FindCluster(AddRoute(ws, request, source, createdBy).0.clusters, id);
      after.Some? && SameButDestinations(FindCluster(ws.clusters, id).value, after.value)
  {
    var i, after := IndexOf(ws.clusters, ClusterKey, request.clusterName), AddRoute(ws, request, source, createdBy).0.clusters;
    if i == |ws.clusters| {
      FindAppend(ws.clusters, ClusterKey, after[i], id);
    } else if after != ws.clusters {
      FindUpdate(ws.clusters, ClusterKey, i, after[i], id);
    }
  }

  lemma DropKeepsFields(clusters: seq<Cluster>, name: Id, clientIp: string, id: Id)
    requires Unique(clusters, ClusterKey) && FindCluster(clusters, id).Some?
    ensures
      var after := FindCluster(DropDestination(clusters, name, clientIp), id);
      after.Some? ==> SameButDestinations(FindCluster(clusters, id).value, after.value)
  {
    var i, after := IndexOf(clusters, ClusterKey, name), DropDestination(clusters, name, clientIp);
    FindWithout(clusters, ClusterKey, name, id);
    if i < |clusters| && IpIsolation.GetDestinationKey(clientIp) in clusters[i].config.destinations && after != Without(clusters, ClusterKey, name) {
      FindUpdate(clusters, ClusterKey, i, after[i], id);
    }
  }

  /** A removal takes a cluster away or keeps all of it but destinations. */
  lemma RemovalKeepsFields(ws: WorkingSet, name: Id, clientIp: Option<string>, cleanUp: bool, id: Id)
    requires Inv(ws) && FindCluster(ws.clusters, id).Some?
    ensures
      var after := FindCluster(RemoveRoute(ws, name, clientIp, cleanUp).0.clusters, id);
      after.Some? ==> SameButDestinations(FindCluster(ws.clusters, id).value, after.value)
  {
    if !Blank(name) && FindRoute(ws.routes, name).Some? {
      var named := FindRoute(ws.routes, name).value.config.clusterId;
      if named.Some? {
        if ForClient(clientIp) {
          DropKeepsFields(ws.clusters, named.value, clientIp.value, id);
        }
        FindWithout(ws.clusters, ClusterKey, named.value, id);
      }
    }
  }

  // ----- whose address is stored -----

  function LiveDestinations(ws: WorkingSet, id: Id): Destinations {
    match FindCluster(ws.clusters, id)
    case Some(c) => c.config.destinations
    case None => map[]
  }

  /** An isolated registration into a known cluster changes no cluster at all. */
  lemma KnownClusterIsLeftAlone(ws: WorkingSet, request: RegisterRequest, source: string, createdBy: Option<string>)
    requires request.useIpIsolation && FindCluster(ws.clusters, request.clusterName).Some?
    ensures AddRoute(ws, request, source, createdBy).0.clusters == ws.clusters
  {
  }

  /** After an isolated registration its client's key holds its address exactly when the cluster was new or held it already. */
  lemma IsolatedStoredIff(ws: WorkingSet, request: RegisterRequest, source: string, createdBy: Option<string>)
    requires Inv(ws) && Isolated(request)
    ensures
      var key := IpIsolation.GetDestinationKey(request.clientIp.value);
      var before := LiveDestinations(ws, request.clusterName);
      var after := LiveDestinations(AddRoute(ws, request, source, createdBy).0, request.clusterName);
      key in after && after[key].address == request.address <==>
      FindCluster(ws.clusters, request.clusterName).None? || (key in before && before[key].address == request.address)
  {
    var i, after := IndexOf(ws.clusters, ClusterKey, request.clusterName), AddRoute(ws, request, source, createdBy).0.clusters;
    if i == |ws.clusters| {
      FindAppend(ws.clusters, ClusterKey, after[i], request.clusterName);
    }
  }

  function Register(ws: WorkingSet, requests: seq<RegisterRequest>, source: string, createdBy: Option<string>): WorkingSet
    decreases |requests|
  {
    if requests == [] then ws
    else AddRoute(Register(ws, requests[..|requests| - 1], source, createdBy), requests[|requests| - 1], source, createdBy).0
  }

  /** Whatever is registered into a cluster under isolation later, it keeps the first client's destination alone. */
  lemma {:induction false} FirstClientStays(ws: WorkingSet, requests: seq<RegisterRequest>, source: string, createdBy: Option<string>, name: Id)
    requires Inv(ws) && FindCluster(ws.clusters, name).None?
    requires requests != [] && Isolated(requests[0]) && requests[0].clusterName == name
    requires forall r :: r in requests && r.clusterName == name ==> r.useIpIsolation
    ensures
      var after := Register(ws, requests, source, createdBy);
      && Inv(after) && FindCluster(after.clusters, name).Some?
      && LiveDestinations(after, name) == map[IpIsolation.GetDestinationKey(requests[0].clientIp.value) := Destination(requests[0].address, None)]
    decreases |requests|
  {
    var n := |requests| - 1;
    var init, last := requests[..n], requests[n];
    if n == 0 {
      FirstRegistration(ws, last, source, createdBy);
    } else {
      assert init[0] == requests[0] && forall r :: r in init ==> r in requests;
      FirstClientStays(ws, init, source, createdBy, name);
      LaterRegistration(Register(ws, init, source, createdBy), last, source, createdBy, name);
    }
  }

  lemma FirstRegistration(ws: WorkingSet, request: RegisterRequest, source: string, createdBy: Option<string>)
    requires Inv(ws) && Isolated(request) && FindCluster(ws.clusters, request.clusterName).None?
    ensures
      var after := AddRoute(ws, request, source, createdBy).0;
      && Inv(after) && FindCluster(after.clusters, request.clusterName).Some?
      && LiveDestinations(after, request.clusterName) ==
         map[IpIsolation.GetDestinationKey(request.clientIp.value) := Destination(request.address, None)]
  {
    AddRouteKeeps(ws, request, source, createdBy);
    RegisteredElsewhere(ws, request, source, createdBy, request.clusterName);
  }

  lemma LaterRegistration(ws: WorkingSet, request: RegisterRequest, source: string, createdBy: Option<string>, name: Id)
    requires Inv(ws) && FindCluster(ws.clusters, name).Some?
    requires request.clusterName == name ==> request.useIpIsolation
    ensures
      var after := AddRoute(ws, request, source, createdBy).0;
      && Inv(after) && FindCluster(after.clusters, name).Some?
      && LiveDestinations(after, name) == LiveDestinations(ws, name)
  {
    AddRouteKeeps(ws, request, source, createdBy);
    RegisteredElsewhere(ws, request, source, createdBy, name);
  }

  lemma RegisteredElsewhere(ws: WorkingSet, request: RegisterRequest, source: string, createdBy: Option<string>, name: Id)
    requires Inv(ws)
    ensures
      var after := AddRoute(ws, request, source, createdBy).0;
      if request.clusterName != name then FindCluster(after.clusters, name) == FindCluster(ws.clusters, name)
      else if FindCluster(ws.clusters, name).None? then
        FindCluster(after.clusters, name).Some? && FindCluster(after.clusters, name).value.config == NewClusterFor(request)
      else request.useIpIsolation ==> after.clusters == ws.clusters
  {
    var i, after := IndexOf(ws.clusters, ClusterKey, request.clusterName), AddRoute(ws, request, source, createdBy).0.clusters;
    if i == |ws.clusters| {
      FindAppend(ws.clusters, ClusterKey, after[i], name);
    } else if after != ws.clusters {
      FindUpdate(ws.clusters, ClusterKey, i, after[i], name);
    }
  }

  /** What the proxy offers of a live cluster: registration writes no client address into a destination's metadata. */
  ghost predicate LiveOffered(available: seq<IpIsolation.DestinationState>, dests: Destinations) {
    forall d :: d in available ==> d.id in dests && d.address == dests[d.id].address && d.clientIp == None
  }

  /**
    Every client of the cluster, whatever address it registered, is sent to the first
    client's; so a later client reaches its own exactly when the two are the same.
   */
  lemma LaterClientsReachTheFirst(ws: WorkingSet, requests: seq<RegisterRequest>, source: string, createdBy: Option<string>, name: Id,
                                  k: nat, available: seq<IpIsolation.DestinationState>)
    requires Inv(ws) && FindCluster(ws.clusters, name).None?
    requires k < |requests| && Isolated(requests[0]) && requests[0].clusterName == name
    requires Isolated(requests[k]) && requests[k].clusterName == name
    requires forall r :: r in requests && r.clusterName == name ==> r.useIpIsolation
    requires available != [] && LiveOffered(available, LiveDestinations(Register(ws, requests, source, createdBy), name))
    ensures
      var r := IpIsolation.Pick(available, requests[k].clientIp);
      && r.Some? && r.value.address == requests[0].address
      && (r.value.address == requests[k].address <==> requests[k].address == requests[0].address)
  {
    FirstClientStays(ws, requests, source, createdBy, name);
    IpIsolation.FirstMatchMatches(available, requests[k].clientIp.value, available[0]);
    var r := IpIsolation.Pick(available, requests[k].clientIp);
    assert r.value in available;
  }

  function ClientRequest(route: Id, ip: string, address: string): RegisterRequest {
    RegisterRequest(route, "c", "/", address, None, [], Some(ip), true)
  }

  /** Two clients, one cluster: the second one's requests go to the first one's address. */
  lemma SecondClientExample()
    ensures
      var empty := WorkingSet([], [], 0, 0);
      var requests := [ClientRequest("r", "10.0.0.1", "http://a"), ClientRequest("q", "10.0.0.2", "http://b")];
      var dests := LiveDestinations(Register(empty, requests, "", None), "c");
      && dests == map[IpIsolation.GetDestinationKey("10.0.0.1") := Destination("http://a", None)]
      && IpIsolation.Pick([IpIsolation.DestinationState(IpIsolation.GetDestinationKey("10.0.0.1"), "http://a", None)],
                          Some("10.0.0.2")).value.address == "http://a"
  {
    var requests := [ClientRequest("r", "10.0.0.1", "http://a"), ClientRequest("q", "10.0.0.2", "http://b")];
    assert !IpIsolation.Blank("10.0.0.1") by {
      assert "10.0.0.1"[0] in "10.0.0.1";
    }
    FirstClientStays(WorkingSet([], [], 0, 0), requests, "", None, "c");
  }
}
