/** What a publication of the working set hands to the proxy, and under which version. */
module ConfigPublisher {
  import opened Arithmetic
  import opened Wrappers
  import opened KeyedList
  import opened SnapshotPublisher
  import opened WorkingSet

  // ----- what is published -----

  /** Enabled routes only, their transforms corrected; the working set keeps them all as they are. */
  function PublishedRoutes(routes: seq<Route>): seq<Route>
    decreases |routes|
  {
    if routes == [] then []
    else
      var n := |routes| - 1;
      PublishedRoutes(routes[..n])
      + if routes[n].enabled then [routes[n].(config := NormalizeTransforms(routes[n].config))] else []
  }

  function ValidDestinations(d: Destinations): Destinations {
    map key | key in d && !Blank(d[key].address) :: d[key]
  }

  /** Destinations without an address are dropped. */
  function SanitizeCluster(c: ClusterConfig): ClusterConfig {
    if |c.destinations| == 0 then c
    else
      var valid := ValidDestinations(c.destinations);
      if |valid| == |c.destinations| then c else c.(destinations := valid)
  }

  /** The record's own health check fills in for a missing native one. */
  function PublishedCluster(c: Cluster): Cluster {
    var config := SanitizeCluster(c.config);
    c.(config := if config.health.None? && c.health.Some? then config.(health := c.health) else config)
  }

  /** Above the installed version, at least one, and the working set's own when that is higher. */
  function SnapshotVersion(current: int, version: int): int {
    Max(current + 1, Max(1, version))
  }

  /** Lists under a version, as compiled into a snapshot or handed to the proxy. */
  datatype Published = Published(routes: seq<Route>, clusters: seq<Cluster>, version: int)

  function PublishedClusters(clusters: seq<Cluster>): seq<Cluster> {
    seq(|clusters|, i requires 0 <= i < |clusters| => PublishedCluster(clusters[i]))
  }

  function PublishedAs(config: WorkingSet, version: int): Published {
    Published(PublishedRoutes(config.routes), PublishedClusters(config.clusters), version)
  }

  /**
    Compiling threw, another publisher got ahead with a version at least as high, or the
    change source read for the hand-over had been disposed.
   */
  datatype PublishFailure = CompilerThrew | Overtaken(current: int) | HandOverFailed

  /** The proxy's side of a hand-over: the lists it was given last from here. */
  class ConfigProvider {
    var handed: Published

    constructor (handed: Published)
      ensures this.handed == handed
    {
      this.handed := handed;
    }

    /** `sourceDisposed` says whether the source read is disposed before its token is taken, which throws. */
    method ApplyFromDynamic(lists: Published, sourceDisposed: bool) returns (applied: bool)
      modifies this
      ensures applied <==> !sourceDisposed
      ensures handed == if applied then lists else old(handed)
    {
      applied := !sourceDisposed;
      if applied {
        handed := lists;
      }
    }
  }

  class DynamicConfigPublisher {
    const snapshotPublisher: GatewaySnapshotPublisher
    const configProvider: ConfigProvider
    /** The lists compiled into the newest snapshot installed from here. */
    var installed: Published

    constructor (snapshotPublisher: GatewaySnapshotPublisher, configProvider: ConfigProvider)
      ensures this.snapshotPublisher == snapshotPublisher && this.configProvider == configProvider && installed == Published([], [], 0)
    {
      this.snapshotPublisher, this.configProvider, installed := snapshotPublisher, configProvider, Published([], [], 0);
    }

    /**
      `during` are the snapshots others install while this one compiles and `rivals` those
      they install between an observation and the swap that follows. The lists are installed
      exactly when compiling does not throw and their version, chosen before, still beats
      the last of these, and then handed over, under the working set's version, exactly when
      the change source has not been disposed meanwhile.
     */
    method Publish(config: WorkingSet, id: nat, compiles: bool, during: seq<Snapshot>, rivals: seq<Snapshot>, sourceDisposed: bool)
      returns (r: Result<Published, PublishFailure>)
      requires Increasing([snapshotPublisher.current] + during + rivals)
      modifies this, snapshotPublisher, configProvider
      ensures
        var field := old([snapshotPublisher.current] + during + rivals);
        var version := SnapshotVersion(old(snapshotPublisher.current.version), config.version);
        var installs := compiles && version > field[|field| - 1].version;
        && (r.Success? <==> installs && !sourceDisposed)
        && (if installs then snapshotPublisher.current == Snapshot(id, version) else snapshotPublisher.current in field)
        && installed == (if installs then PublishedAs(config, version) else old(installed))
        && (r.Failure? && r.error.CompilerThrew? <==> !compiles)
        && (r.Failure? && r.error.Overtaken? ==> version <= r.error.current)
      ensures configProvider.handed == if r.Success? then PublishedAs(config, config.version) else old(configProvider.handed)
      ensures r.Success? ==> r.value == configProvider.handed
    {
      var publishRoutes := RoutesToPublish(config.routes);
      var publishClusters := ClustersToPublish(config.clusters);
      var version := SnapshotVersion(snapshotPublisher.current.version, config.version);
      var outcome := CompileAndInstall(Snapshot(id, version), compiles, during, rivals);
      match outcome
      case Failure(error) => return Failure(error);
      case Success(_) =>
        installed := Published(publishRoutes, publishClusters, version);
        var lists := Published(publishRoutes, publishClusters, config.version);
        var applied := configProvider.ApplyFromDynamic(lists, sourceDisposed);
        r := if applied then Success(lists) else Failure(HandOverFailed);
    }

    method CompileAndInstall(snapshot: Snapshot, compiles: bool, during: seq<Snapshot>, rivals: seq<Snapshot>)
      returns (r: Result<Snapshot, PublishFailure>)
      requires Increasing([snapshotPublisher.current] + during + rivals)
      modifies snapshotPublisher
      ensures
        var field := old([snapshotPublisher.current] + during + rivals);
        && (r.Success? <==> compiles && snapshot.version > field[|field| - 1].version)
        && (r.Success? ==> snapshotPublisher.current == snapshot)
        && (r.Failure? ==> snapshotPublisher.current in field)
        && (r.Failure? && r.error.CompilerThrew? <==> !compiles)
        && (r.Failure? && r.error.Overtaken? ==> snapshot.version <= r.error.current)
        && (r.Failure? ==> !r.error.HandOverFailed?)
    {
      ghost var field := [snapshotPublisher.current] + during + rivals;
      if during != [] {
        assert field[|during|] == during[|during| - 1];
        snapshotPublisher.current := during[|during| - 1];
      }
      assert [snapshotPublisher.current] + rivals == field[|during|..];
      if !compiles {
        return Failure(CompilerThrew);
      }
      var outcome, _ := snapshotPublisher.Publish(snapshot, rivals);
      match outcome
      case Success(value) => r := Success(value);
      case Failure(StaleVersion(_, current)) => r := Failure(Overtaken(current));
    }
  }

  method RoutesToPublish(routes: seq<Route>) returns (published: seq<Route>)
    ensures published == PublishedRoutes(routes)
  {
    published := [];
    var i := 0;
    while i < |routes|
      invariant i <= |routes| && published == PublishedRoutes(routes[..i])
    {
      assert routes[..i + 1][..i] == routes[..i];
      var dynRoute := routes[i];
      if dynRoute.enabled {
        published := published + [dynRoute.(config := NormalizeTransforms(dynRoute.config))];
      }
      i := i + 1;
    }
    assert routes[..i] == routes;
  }

  method ClustersToPublish(clusters: seq<Cluster>) returns (published: seq<Cluster>)
    ensures published == PublishedClusters(clusters)
  {
    published := [];
    var i := 0;
    while i < |clusters|
      invariant i <= |clusters| && |published| == i
      invariant forall k :: 0 <= k < i ==> published[k] == PublishedCluster(clusters[k])
    {
      var dynCluster := clusters[i];
      var nativeConfig := SanitizeCluster(dynCluster.config);
      if nativeConfig.health.None? && dynCluster.health.Some? {
        nativeConfig := nativeConfig.(health := dynCluster.health);
      }
      published := published + [dynCluster.(config := nativeConfig)];
      i := i + 1;
    }
  }

  /** A route is published exactly when it exists and is enabled. */
  lemma {:induction false} PublishedExactlyEnabled(routes: seq<Route>, id: Id)
    requires Unique(routes, RouteKey)
    ensures
      FindRoute(PublishedRoutes(routes), id) ==
      match FindRoute(routes, id)
      case None => None
      case Some(r) => if r.enabled then Some(r.(config := NormalizeTransforms(r.config))) else None
    ensures Unique(PublishedRoutes(routes), RouteKey)
    decreases |routes|
  {
    if routes != [] {
      var init, last := routes[..|routes| - 1], routes[|routes| - 1];
      assert routes == init + [last];
      PublishedExactlyEnabled(init, id);
      PublishedExactlyEnabled(init, last.config.id);
      assert FindRoute(init, last.config.id).None?;
      FindAppend(init, RouteKey, last, id);
      PublishedAppend(PublishedRoutes(init), last, id);
    }
  }

  /** Published is an enabled route, as it is but for its transforms. */
  predicate PublishedFrom(p: Route, r: Route) {
    r.enabled && p == r.(config := NormalizeTransforms(r.config))
  }

  /** The published routes come from the positions `at`, ascending, and from every enabled one. */
  ghost predicate ComeFrom(published: seq<Route>, routes: seq<Route>, at: seq<nat>) {
    && |at| == |published| && (forall k, l :: 0 <= k < l < |at| ==> at[k] < at[l])
    && (forall k :: 0 <= k < |at| ==> at[k] < |routes| && PublishedFrom(published[k], routes[at[k]]))
    && (forall i :: 0 <= i < |routes| && routes[i].enabled ==> i in at)
  }

  /** The published routes are exactly the enabled ones, in order: `at` says where each comes from. */
  lemma {:induction false} PublishedInOrder(routes: seq<Route>) returns (at: seq<nat>)
    ensures ComeFrom(PublishedRoutes(routes), routes, at)
    decreases |routes|
  {
    at := [];
    if routes != [] {
      var n := |routes| - 1;
      at := PublishedInOrder(routes[..n]);
      var published := PublishedRoutes(routes[..n]);
      assert routes[..n] + [routes[n]] == routes;
      if routes[n].enabled {
        var last := routes[n].(config := NormalizeTransforms(routes[n].config));
        OneMorePublished(published, routes[..n], at, routes[n], last);
        at := at + [n];
      } else {
        assert published + [] == published;
      }
    }
  }

  lemma OneMorePublished(published: seq<Route>, routes: seq<Route>, at: seq<nat>, r: Route, p: Route)
    requires ComeFrom(published, routes, at) && PublishedFrom(p, r)
    ensures ComeFrom(published + [p], routes + [r], at + [|routes|])
  {
    var at' := at + [|routes|];
    assert forall k :: 0 <= k < |at| ==> at'[k] == at[k] && (routes + [r])[at[k]] == routes[at[k]];
    assert at'[|at|] == |routes|;
  }

  lemma PublishedAppend(published: seq<Route>, last: Route, id: Id)
    requires Unique(published, RouteKey) && FindRoute(published, last.config.id).None?
    ensures
      var r := last.(config := NormalizeTransforms(last.config));
      var after := published + if last.enabled then [r] else [];
      && Unique(after, RouteKey)
      && FindRoute(after, id) == if last.enabled && id == last.config.id then Some(r) else FindRoute(published, id)
  {
    if last.enabled {
      FindAppend(published, RouteKey, last.(config := NormalizeTransforms(last.config)), id);
    } else {
      assert published + [] == published;
    }
  }

  lemma {:induction false} SubMapSize(d: Destinations, e: Destinations)
    requires e.Keys <= d.Keys && |e| == |d|
    ensures e.Keys == d.Keys
  {
    assert |e.Keys| == |e| && |d.Keys| == |d|;
    if e.Keys != d.Keys {
      var k :| k in d.Keys && k !in e.Keys;
      SubsetSize(e.Keys, d.Keys - {k});
    }
  }

  lemma {:induction false} SubsetSize(a: set<string>, b: set<string>)
    requires a <= b
    ensures |a| <= |b|
  {
    if a != {} {
      var x :| x in a;
      SubsetSize(a - {x}, b - {x});
    }
  }

  /** Space, tab, line feed and carriage return. */
  predicate White(c: char) {
    c == ' ' || c == '\t' || c == '\n' || c == '\r'
  }

  /** Some character of the address is not white space. */
  predicate HasAddress(d: Destination) {
    exists i :: 0 <= i < |d.address| && !White(d.address[i])
  }

  /** A key is among the valid ones exactly when it was given with an address, and then as it was given. */
  lemma ValidDestinationsAre(d: Destinations, key: string)
    ensures key in ValidDestinations(d) <==> key in d && HasAddress(d[key])
    ensures key in ValidDestinations(d) ==> ValidDestinations(d)[key] == d[key]
  {
    if key in d {
      var address := d[key].address;
      if Blank(address) {
        assert forall i :: 0 <= i < |address| ==> address[i] in address;
      } else {
        var c :| c in address && c !in " \t\r\n";
        var i :| 0 <= i < |address| && address[i] == c;
        assert " \t\r\n"[0] == ' ' && " \t\r\n"[1] == '\t' && " \t\r\n"[2] == '\r' && " \t\r\n"[3] == '\n';
        assert !White(address[i]);
      }
    }
  }

  /**
    The published cluster of an id is the record but for two things: its destinations are
    exactly those with an address, as they are, and its health check is the native one when
    there is one and else the record's own.
   */
  lemma PublishedClusterIs(clusters: seq<Cluster>, id: Id, key: string)
    ensures FindCluster(PublishedClusters(clusters), id).Some? <==> FindCluster(clusters, id).Some?
    ensures FindCluster(clusters, id).Some? ==>
              var c, p := FindCluster(clusters, id).value, FindCluster(PublishedClusters(clusters), id).value;
              && (key in p.config.destinations <==> key in c.config.destinations && HasAddress(c.config.destinations[key]))
              && (key in p.config.destinations ==> p.config.destinations[key] == c.config.destinations[key])
              && p.config.health == (if c.config.health.Some? then c.config.health else c.health)
              && p == c.(config := c.config.(destinations := p.config.destinations, health := p.config.health))
  {
    SameClusterIds(clusters, PublishedClusters(clusters), id);
    if FindCluster(clusters, id).Some? {
      var c := FindCluster(clusters, id).value;
      SanitizeIs(c.config);
      ValidDestinationsAre(c.config.destinations, key);
    }
  }

  lemma {:induction false} SameClusterIds(a: seq<Cluster>, b: seq<Cluster>, id: Id)
    requires |a| == |b| && forall k :: 0 <= k < |a| ==> a[k].config.id == b[k].config.id
    ensures IndexOf(a, ClusterKey, id) == IndexOf(b, ClusterKey, id)
    decreases |a|
  {
    if a != [] {
      assert ClusterKey(a[0]) == ClusterKey(b[0]);
      SameClusterIds(a[1..], b[1..], id);
    }
  }

  /** Exactly the destinations with an address are published, and sanitizing again changes nothing. */
  lemma SanitizeIs(c: ClusterConfig)
    ensures SanitizeCluster(c) == c.(destinations := ValidDestinations(c.destinations))
    ensures SanitizeCluster(SanitizeCluster(c)) == SanitizeCluster(c)
  {
    var valid := ValidDestinations(c.destinations);
    if |valid| == |c.destinations| {
      SubMapSize(c.destinations, valid);
      assert valid == c.destinations;
    }
    assert ValidDestinations(valid) == valid;
  }
}
