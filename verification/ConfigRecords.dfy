/** The mutable records of the working set, and the lists that hold them. */
module ConfigRecords {
  import opened Wrappers
  import opened KeyedList
  import opened WorkingSet

  class DynamicClusterConfig {
    var config: ClusterConfig
    const clusterUid: Uid
    var healthCheck: Option<int>
    var source: string
    var createdBy: Option<string>

    constructor (config: ClusterConfig, clusterUid: Uid, healthCheck: Option<int>, source: string, createdBy: Option<string>)
      ensures Value() == Cluster(config, clusterUid, healthCheck, source, createdBy)
    {
      this.config, this.clusterUid, this.healthCheck := config, clusterUid, healthCheck;
      this.source, this.createdBy := source, createdBy;
    }

    function Value(): Cluster
      reads this
    {
      Cluster(config, clusterUid, healthCheck, source, createdBy)
    }

    /** A new configuration for a known cluster; the source and its author change together. */
    method Overwrite(config: ClusterConfig, healthCheck: Option<int>, source: string, createdBy: Option<string>)
      modifies this
      ensures Value() == Retagged(old(Value()).(config := config, health := healthCheck), source, createdBy)
    {
      this.config, this.healthCheck := config, healthCheck;
      if source != "" && source != this.source {
        this.source, this.createdBy := source, createdBy;
      }
    }
  }

  class DynamicRouteConfig {
    var config: RouteConfig
    const routeUid: Uid
    var clusterUid: Option<Uid>
    var enabled: bool
    var source: string
    var createdBy: Option<string>

    constructor (config: RouteConfig, routeUid: Uid, clusterUid: Option<Uid>, source: string, createdBy: Option<string>)
      ensures Value() == Route(config, routeUid, clusterUid, true, source, createdBy)
    {
      this.config, this.routeUid, this.clusterUid, this.enabled := config, routeUid, clusterUid, true;
      this.source, this.createdBy := source, createdBy;
    }

    function Value(): Route
      reads this
    {
      Route(config, routeUid, clusterUid, enabled, source, createdBy)
    }

    method Overwrite(config: RouteConfig, clusterUid: Option<Uid>, source: string, createdBy: Option<string>)
      modifies this
      ensures Value() == RetaggedRoute(old(Value()).(config := config, clusterUid := clusterUid), source, createdBy)
    {
      this.config, this.clusterUid := config, clusterUid;
      if source != "" && source != this.source {
        this.source, this.createdBy := source, createdBy;
      }
    }
  }

  function ClusterValues(clusters: seq<DynamicClusterConfig>): (r: seq<Cluster>)
    reads clusters
    ensures |r| == |clusters| && forall i :: 0 <= i < |clusters| ==> r[i] == clusters[i].Value()
  {
    seq(|clusters|, i requires 0 <= i < |clusters| reads clusters => clusters[i].Value())
  }

  function RouteValues(routes: seq<DynamicRouteConfig>): (r: seq<Route>)
    reads routes
    ensures |r| == |routes| && forall i :: 0 <= i < |routes| ==> r[i] == routes[i].Value()
  {
    seq(|routes|, i requires 0 <= i < |routes| reads routes => routes[i].Value())
  }

  lemma ClusterValuesAppend(clusters: seq<DynamicClusterConfig>, dc: DynamicClusterConfig)
    ensures ClusterValues(clusters + [dc]) == ClusterValues(clusters) + [dc.Value()]
  {
  }

  lemma ClusterValuesRemove(clusters: seq<DynamicClusterConfig>, i: nat)
    requires i < |clusters|
    ensures ClusterValues(RemoveAt(clusters, i)) == RemoveAt(ClusterValues(clusters), i)
  {
  }

  lemma RouteValuesAppend(routes: seq<DynamicRouteConfig>, dr: DynamicRouteConfig)
    ensures RouteValues(routes + [dr]) == RouteValues(routes) + [dr.Value()]
  {
  }

  lemma RouteValuesRemove(routes: seq<DynamicRouteConfig>, i: nat)
    requires i < |routes|
    ensures RouteValues(RemoveAt(routes, i)) == RemoveAt(RouteValues(routes), i)
  {
  }

  ghost predicate DistinctRecords<T>(s: seq<T>) {
    forall i, j :: 0 <= i < j < |s| ==> s[i] != s[j]
  }

  lemma DistinctAppend<T>(s: seq<T>, x: T)
    requires DistinctRecords(s) && x !in s
    ensures DistinctRecords(s + [x])
  {
  }

  lemma KeptDistinct<T>(s: seq<T>, kept: seq<T>, i: nat)
    requires DistinctRecords(s) && i < |s| && DistinctRecords(kept) && forall x :: x in kept ==> x in s[..i]
    ensures DistinctRecords(kept + [s[i]]) && forall x :: x in kept + [s[i]] ==> x in s[..i + 1]
    ensures forall x :: x in kept ==> x in s[..i + 1]
  {
    assert s[..i + 1] == s[..i] + [s[i]];
    assert s[i] !in s[..i];
    DistinctAppend(kept, s[i]);
  }

  lemma DistinctRemove<T>(s: seq<T>, i: nat)
    requires DistinctRecords(s) && i < |s|
    ensures DistinctRecords(RemoveAt(s, i))
    ensures forall x :: x in RemoveAt(s, i) ==> x in s
  {
    var rest := RemoveAt(s, i);
    assert forall j :: 0 <= j < |rest| ==> rest[j] == s[if j < i then j else j + 1];
  }

  lemma ReferencedIdsAppend(routes: seq<Route>, r: Route)
    ensures ReferencedIds(routes + [r]) ==
            ReferencedIds(routes)
            + if r.config.clusterId.Some? && !Blank(r.config.clusterId.value) then {r.config.clusterId.value} else {}
  {
    var id := r.config.clusterId;
    if id.Some? && !Blank(id.value) {
      assert r in routes + [r];
      assert id.value in ReferencedIds(routes + [r]);
    }
    forall x | x in ReferencedIds(routes)
      ensures x in ReferencedIds(routes + [r])
    {
      var q :| q in routes && q.config.clusterId == Some(x) && !Blank(x);
      assert q in routes + [r];
    }
  }

  /** `RemoveAll` by id. */
  method FilterRoutes(routes: seq<DynamicRouteConfig>, id: Id) returns (kept: seq<DynamicRouteConfig>)
    requires DistinctRecords(routes)
    ensures DistinctRecords(kept) && forall r :: r in kept ==> r in routes
    ensures RouteValues(kept) == Without(RouteValues(routes), RouteKey, id)
  {
    ghost var values := RouteValues(routes);
    kept := [];
    var i := 0;
    assert values[0..] == values;
    while i < |routes|
      invariant i <= |routes| && DistinctRecords(kept) && forall r :: r in kept ==> r in routes[..i]
      invariant RouteValues(kept) + Without(values[i..], RouteKey, id) == Without(values, RouteKey, id)
    {
      WithoutStep(RouteValues(kept), values, RouteKey, id, i);
      KeptDistinct(routes, kept, i);
      if routes[i].config.id != id {
        RouteValuesAppend(kept, routes[i]);
        kept := kept + [routes[i]];
      }
      i := i + 1;
    }
  }

  method FilterClusters(clusters: seq<DynamicClusterConfig>, id: Id) returns (kept: seq<DynamicClusterConfig>)
    requires DistinctRecords(clusters)
    ensures DistinctRecords(kept) && forall c :: c in kept ==> c in clusters
    ensures ClusterValues(kept) == Without(ClusterValues(clusters), ClusterKey, id)
  {
    ghost var values := ClusterValues(clusters);
    kept := [];
    var i := 0;
    assert values[0..] == values;
    while i < |clusters|
      invariant i <= |clusters| && DistinctRecords(kept) && forall c :: c in kept ==> c in clusters[..i]
      invariant ClusterValues(kept) + Without(values[i..], ClusterKey, id) == Without(values, ClusterKey, id)
    {
      WithoutStep(ClusterValues(kept), values, ClusterKey, id, i);
      KeptDistinct(clusters, kept, i);
      if clusters[i].config.id != id {
        ClusterValuesAppend(kept, clusters[i]);
        kept := kept + [clusters[i]];
      }
      i := i + 1;
    }
  }

  lemma PutKnownRoute(ws: WorkingSet, config: RouteConfig, source: string, createdBy: Option<string>, retag: bool, i: nat)
    requires i == IndexOf(ws.routes, RouteKey, config.id) && i < |ws.routes|
    ensures
      var r := ws.routes[i].(config := config, clusterUid := Resolve(ws.clusters, config.clusterId));
      PutRoute(ws, config, source, createdBy, retag) ==
      ws.(routes := ws.routes[i := if retag then RetaggedRoute(r, source, createdBy) else r])
  {
  }

  lemma PutNewRoute(ws: WorkingSet, config: RouteConfig, source: string, createdBy: Option<string>, retag: bool)
    requires IndexOf(ws.routes, RouteKey, config.id) == |ws.routes|
    ensures PutRoute(ws, config, source, createdBy, retag) ==
            ws.(routes := ws.routes + [Route(config, ws.nextUid, Resolve(ws.clusters, config.clusterId), true, source, createdBy)],
                nextUid := ws.nextUid + 1)
  {
  }

  /** The authoritative working set. `nextUid` stands for the generator of fresh uids. */
  class DynamicConfigState {
    var routes: seq<DynamicRouteConfig>
    var clusters: seq<DynamicClusterConfig>
    var version: nat
    var nextUid: Uid

    constructor ()
      ensures Valid() && View() == WorkingSet([], [], 0, 0)
    {
      routes, clusters, version, nextUid := [], [], 0, 0;
    }

    ghost predicate Valid()
      reads this
    {
      DistinctRecords(routes) && DistinctRecords(clusters)
    }

    ghost function View(): WorkingSet
      reads this, routes, clusters
    {
      WorkingSet(RouteValues(routes), ClusterValues(clusters), version, nextUid)
    }

    method IncrementVersion()
      modifies this`version
      ensures View() == Commit(old(View()))
    {
      version := version + 1;
    }

    /** Editing one record in place replaces one value of the view. */
    lemma ClusterEdited(before: WorkingSet, i: nat)
      requires i < |clusters| == |before.clusters|
      requires forall j :: 0 <= j < |clusters| && j != i ==> clusters[j].Value() == before.clusters[j]
      requires RouteValues(routes) == before.routes && version == before.version && nextUid == before.nextUid
      ensures View() == before.(clusters := before.clusters[i := clusters[i].Value()])
    {
    }

    lemma RouteEdited(before: WorkingSet, i: nat)
      requires i < |routes| == |before.routes|
      requires forall j :: 0 <= j < |routes| && j != i ==> routes[j].Value() == before.routes[j]
      requires ClusterValues(clusters) == before.clusters && version == before.version && nextUid == before.nextUid
      ensures View() == before.(routes := before.routes[i := routes[i].Value()])
    {
    }

    /** Adds a new record under the next uid. */
    method AddNewCluster(config: ClusterConfig, healthCheck: Option<int>, source: string, createdBy: Option<string>)
      returns (dc: DynamicClusterConfig)
      requires Valid()
      modifies this`clusters, this`nextUid
      ensures Valid() && fresh(dc) && clusters == old(clusters) + [dc]
      ensures dc.Value() == Cluster(config, old(nextUid), healthCheck, source, createdBy)
      ensures View() == old(View()).(
                clusters := old(ClusterValues(clusters)) + [dc.Value()],
                nextUid := old(nextUid) + 1)
    {
      dc := new DynamicClusterConfig(config, nextUid, healthCheck, source, createdBy);
      DistinctAppend(clusters, dc);
      ClusterValuesAppend(clusters, dc);
      clusters := clusters + [dc];
      nextUid := nextUid + 1;
    }

    method AddNewRoute(config: RouteConfig, clusterUid: Option<Uid>, source: string, createdBy: Option<string>)
      returns (dr: DynamicRouteConfig)
      requires Valid()
      modifies this`routes, this`nextUid
      ensures Valid() && fresh(dr) && routes == old(routes) + [dr]
      ensures dr.Value() == Route(config, old(nextUid), clusterUid, true, source, createdBy)
      ensures View() == old(View()).(
                routes := old(RouteValues(routes)) + [dr.Value()],
                nextUid := old(nextUid) + 1)
    {
      dr := new DynamicRouteConfig(config, nextUid, clusterUid, source, createdBy);
      DistinctAppend(routes, dr);
      RouteValuesAppend(routes, dr);
      routes := routes + [dr];
      nextUid := nextUid + 1;
    }

    /** Gives the record at a position a new configuration. */
    method OverwriteCluster(i: nat, config: ClusterConfig, healthCheck: Option<int>, source: string, createdBy: Option<string>)
      requires Valid() && i < |clusters|
      modifies clusters[i]
      ensures View() == old(View()).(clusters := old(ClusterValues(clusters))[i :=
                Retagged(old(clusters[i].Value()).(config := config, health := healthCheck), source, createdBy)])
    {
      clusters[i].Overwrite(config, healthCheck, source, createdBy);
      ClusterEdited(old(View()), i);
    }

    method OverwriteRoute(i: nat, config: RouteConfig, clusterUid: Option<Uid>, source: string, createdBy: Option<string>)
      requires Valid() && i < |routes|
      modifies routes[i]
      ensures View() == old(View()).(routes := old(RouteValues(routes))[i :=
                RetaggedRoute(old(routes[i].Value()).(config := config, clusterUid := clusterUid), source, createdBy)])
    {
      routes[i].Overwrite(config, clusterUid, source, createdBy);
      RouteEdited(old(View()), i);
    }

    method RemoveClusterAt(i: nat)
      requires Valid() && i < |clusters|
      modifies this`clusters
      ensures Valid() && clusters == RemoveAt(old(clusters), i)
      ensures View() == old(View()).(clusters := RemoveAt(old(ClusterValues(clusters)), i))
    {
      DistinctRemove(clusters, i);
      ClusterValuesRemove(clusters, i);
      clusters := RemoveAt(clusters, i);
    }

    method AddCluster(dc: DynamicClusterConfig)
      requires Valid() && dc !in clusters
      modifies this`clusters
      ensures Valid() && clusters == old(clusters) + [dc]
      ensures View() == old(View()).(clusters := old(ClusterValues(clusters)) + [dc.Value()])
    {
      DistinctAppend(clusters, dc);
      ClusterValuesAppend(clusters, dc);
      clusters := clusters + [dc];
    }

    method AddRoute(dr: DynamicRouteConfig)
      requires Valid() && dr !in routes
      modifies this`routes
      ensures Valid() && routes == old(routes) + [dr]
      ensures View() == old(View()).(routes := old(RouteValues(routes)) + [dr.Value()])
    {
      DistinctAppend(routes, dr);
      RouteValuesAppend(routes, dr);
      routes := routes + [dr];
    }

    /** `RemoveAll` by route id. */
    method RemoveAllRoutes(id: Id)
      requires Valid()
      modifies this`routes
      ensures Valid() && forall x :: x in routes ==> x in old(routes)
      ensures View() == old(View()).(routes := Without(old(RouteValues(routes)), RouteKey, id))
    {
      routes := FilterRoutes(routes, id);
    }

    method RemoveAllClusters(id: Id)
      requires Valid()
      modifies this`clusters
      ensures Valid() && forall x :: x in clusters ==> x in old(clusters)
      ensures View() == old(View()).(clusters := Without(old(ClusterValues(clusters)), ClusterKey, id))
    {
      clusters := FilterClusters(clusters, id);
    }

    /** Corrects the transforms of every route. */
    method NormalizeRoutes()
      requires Valid()
      modifies routes
      ensures View() == old(View()).(routes := NormalizeAll(old(RouteValues(routes))))
    {
      var k := 0;
      while k < |routes|
        invariant k <= |routes|
        invariant forall j :: 0 <= j < k ==> routes[j].Value() == NormalizeAll(old(RouteValues(routes)))[j]
        invariant forall j :: k <= j < |routes| ==> routes[j].Value() == old(RouteValues(routes))[j]
      {
        routes[k].config := NormalizeTransforms(routes[k].config);
        k := k + 1;
      }
    }

    method RemoveRouteAt(i: nat)
      requires Valid() && i < |routes|
      modifies this`routes
      ensures Valid() && routes == RemoveAt(old(routes), i)
      ensures View() == old(View()).(routes := RemoveAt(old(RouteValues(routes)), i))
    {
      DistinctRemove(routes, i);
      RouteValuesRemove(routes, i);
      routes := RemoveAt(routes, i);
    }

    /** The first cluster record with an id, or the length of the list. */
    method FindCluster(id: Id) returns (i: nat)
      ensures i == IndexOf(ClusterValues(clusters), ClusterKey, id)
    {
      i := 0;
      while i < |clusters| && clusters[i].config.id != id
        invariant i <= |clusters| && forall j :: 0 <= j < i ==> clusters[j].config.id != id
      {
        i := i + 1;
      }
      IndexIs(ClusterValues(clusters), ClusterKey, id, i);
    }

    method FindRoute(id: Id) returns (i: nat)
      ensures i == IndexOf(RouteValues(routes), RouteKey, id)
    {
      i := 0;
      while i < |routes| && routes[i].config.id != id
        invariant i <= |routes| && forall j :: 0 <= j < i ==> routes[j].config.id != id
      {
        i := i + 1;
      }
      IndexIs(RouteValues(routes), RouteKey, id, i);
    }

    method ResolveClusterUid(clusterId: Option<Id>) returns (uid: Option<Uid>)
      ensures uid == Resolve(ClusterValues(clusters), clusterId)
    {
      if clusterId.None? || Blank(clusterId.value) {
        return None;
      }
      var i := FindCluster(clusterId.value);
      uid := if i < |clusters| then Some(clusters[i].clusterUid) else None;
    }

    /** The cluster ids routes name, blank ones left out. */
    method ReferencedClusterIds() returns (ids: set<Id>)
      ensures ids == ReferencedIds(RouteValues(routes))
    {
      ids := {};
      var i := 0;
      ghost var values := RouteValues(routes);
      while i < |routes|
        invariant i <= |routes| && ids == ReferencedIds(values[..i])
      {
        assert values[..i + 1] == values[..i] + [values[i]];
        ReferencedIdsAppend(values[..i], values[i]);
        var id := routes[i].config.clusterId;
        if id.Some? && !Blank(id.value) {
          ids := ids + {id.value};
        }
        i := i + 1;
      }
      assert values[..i] == values;
    }

    method IsReferenced(id: Id) returns (r: bool)
      ensures r <==> exists x :: x in RouteValues(routes) && Names(x, id)
    {
      var i := 0;
      while i < |routes|
        invariant i <= |routes| && forall j :: 0 <= j < i ==> !Names(routes[j].Value(), id)
      {
        if routes[i].config.clusterId == Some(id) {
          assert RouteValues(routes)[i] in RouteValues(routes);
          return true;
        }
        i := i + 1;
      }
      r := false;
    }
  }
}
