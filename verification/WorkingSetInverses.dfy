/** What can be read back after an operation, and which operations undo which. */
module WorkingSetInverses {
  import opened Wrappers
  import opened KeyedList
  import opened WorkingSet
  import opened WorkingSetInvariant
  import opened WorkingSetTheorems
  import IpIsolation

  // ----- reading back -----

  /** A configuration put under an id is found there; a known record keeps its uid, and no other changes. */
  lemma ClusterReadsBack(ws: WorkingSet, config: ClusterConfig, source: string, createdBy: Option<string>, id: Id)
    requires Inv(ws) && AddClusterConfig(ws, config, source, createdBy).1.Accepted?
    ensures
      var before, after := ws.clusters, AddClusterConfig(ws, config, source, createdBy).0.clusters;
      if id != config.id then FindCluster(after, id) == FindCluster(before, id)
      else
        && FindCluster(after, id).Some? && FindCluster(after, id).value.config == config
        && FindCluster(after, id).value.uid == if FindCluster(before, id).Some? then FindCluster(before, id).value.uid else ws.nextUid
  {
    var i, after := IndexOf(ws.clusters, ClusterKey, config.id), AddClusterConfig(ws, config, source, createdBy).0.clusters;
    if i < |ws.clusters| {
      FindUpdate(ws.clusters, ClusterKey, i, after[i], id);
    } else {
      FindAppend(ws.clusters, ClusterKey, after[i], id);
    }
  }

  /** What an update leaves out stays: the same update again, or one that leaves out everything, changes no cluster. */
  lemma UpdateIsIdempotent(ws: WorkingSet, id: Id, destinations: Option<Addresses>, policy: Option<string>, health: Option<int>)
    requires Inv(ws)
    ensures
      var after := UpdateCluster(ws, id, destinations, policy, health).0;
      && UpdateCluster(after, id, destinations, policy, health).0.clusters == after.clusters
      && UpdateCluster(ws, id, None, None, None).0.clusters == ws.clusters
  {
    var i, after := IndexOf(ws.clusters, ClusterKey, id), UpdateCluster(ws, id, destinations, policy, health).0;
    if !Blank(id) && i < |ws.clusters| {
      FindUpdate(ws.clusters, ClusterKey, i, after.clusters[i], id);
    }
  }

  /** Disabling a route and enabling it again restores both lists. */
  lemma EnabledRoundTrip(ws: WorkingSet, id: Id, r: Route)
    requires Inv(ws) && FindRoute(ws.routes, id) == Some(r) && !Blank(id)
    ensures
      var flipped := SetRouteEnabled(ws, id, !r.enabled).0;
      && flipped.routes != ws.routes
      && SetRouteEnabled(flipped, id, r.enabled).0.(version := ws.version) == ws
  {
    var i, flipped := IndexOf(ws.routes, RouteKey, id), SetRouteEnabled(ws, id, !r.enabled).0;
    FindUpdate(ws.routes, RouteKey, i, r.(enabled := !r.enabled), id);
    assert flipped.routes[i] != ws.routes[i];
    assert flipped.routes[i := r] == ws.routes;
  }

  predicate SameLetter(a: char, b: char) {
    a == b || ('a' <= a <= 'z' && b == a - 32 as char) || ('a' <= b <= 'z' && a == b - 32 as char)
  }

  /** Equal but for the case of ASCII letters. */
  predicate SameWord(a: string, b: string) {
    |a| == |b| && forall i :: 0 <= i < |a| ==> SameLetter(a[i], b[i])
  }

  lemma UpperIs(a: string, b: string)
    ensures Upper(a) == Upper(b) <==> SameWord(a, b)
  {
    if |a| == |b| {
      forall i | 0 <= i < |a|
        ensures Upper(a)[i] == Upper(b)[i] <==> SameLetter(a[i], b[i])
      {
        LetterIs(a[i], b[i]);
      }
      if SameWord(a, b) {
        assert forall i :: 0 <= i < |a| ==> SameLetter(a[i], b[i]) && Upper(a)[i] == Upper(b)[i];
      } else {
        var i :| 0 <= i < |a| && !SameLetter(a[i], b[i]);
        assert Upper(a)[i] != Upper(b)[i];
      }
    } else {
      assert |Upper(a)| == |a| && |Upper(b)| == |b|;
    }
  }

  lemma LetterIs(a: char, b: char)
    ensures (if 'a' <= a <= 'z' then a - 32 as char else a) == (if 'a' <= b <= 'z' then b - 32 as char else b) <==> SameLetter(a, b)
  {
  }

  /** An action is given, not blank, and none of the four there are. */
  predicate UnknownAction(t: Transform) {
    "X-Forwarded" in t
    && (exists i :: 0 <= i < |t["X-Forwarded"]| && t["X-Forwarded"][i] !in [' ', '\t', '\r', '\n'])
    && !SameWord(t["X-Forwarded"], "Set") && !SameWord(t["X-Forwarded"], "Append")
    && !SameWord(t["X-Forwarded"], "Remove") && !SameWord(t["X-Forwarded"], "Random")
  }

  lemma BadTransformIff(t: Transform)
    ensures BadTransform(t) <==> UnknownAction(t)
  {
    if X_FORWARDED in t {
      var action := t[X_FORWARDED];
      UpperIs(action, "Set");
      UpperIs(action, "Append");
      UpperIs(action, "Remove");
      UpperIs(action, "Random");
      assert Upper("Set") == "SET" && Upper("Append") == "APPEND" && Upper("Remove") == "REMOVE" && Upper("Random") == "RANDOM";
      BlankIff(action);
    }
  }

  lemma BlankIff(s: string)
    ensures Blank(s) <==> !exists i :: 0 <= i < |s| && s[i] !in [' ', '\t', '\r', '\n']
  {
    assert forall i :: 0 <= i < |s| ==> s[i] in s;
    assert " \t\r\n" == [' ', '\t', '\r', '\n'];
  }

  /** A transform whose action is unknown becomes the single Set action, every other one stays, and so does the rest of the route. */
  lemma NormalizedIs(c: RouteConfig, i: nat)
    requires i < |c.transforms|
    ensures
      var n := NormalizeTransforms(c);
      && n.(transforms := c.transforms) == c && |n.transforms| == |c.transforms|
      && n.transforms[i] == (if UnknownAction(c.transforms[i]) then map["X-Forwarded" := "Set"] else c.transforms[i])
      && !UnknownAction(n.transforms[i])
  {
    BadTransformIff(c.transforms[i]);
    assert SameWord("Set", "Set");
  }

  /** Correcting transforms twice is correcting them once. */
  lemma NormalizeIsIdempotent(c: RouteConfig)
    ensures NormalizeTransforms(NormalizeTransforms(c)) == NormalizeTransforms(c)
  {
    var n := NormalizeTransforms(c);
    forall i | 0 <= i < |n.transforms|
      ensures !BadTransform(n.transforms[i])
    {
      NormalizedIs(c, i);
      BadTransformIff(n.transforms[i]);
    }
    assert NormalizeTransforms(n).transforms == n.transforms;
  }

  // ----- renaming there and back -----

  /** A route whose redirection there and back gives it back unchanged. */
  predicate ComesBack(r: Route, oldId: Id, newId: Id, uid: Uid) {
    !Names(r, newId) && (Names(r, oldId) ==> r.clusterUid == Some(uid))
  }

  lemma RedirectedBack(r: Route, oldId: Id, newId: Id, uid: Uid)
    requires oldId != newId
    ensures Redirected(Redirected([r], oldId, newId, uid), newId, oldId, uid)[0] == r <==> ComesBack(r, oldId, newId, uid)
  {
  }

  /**
    Renaming a cluster and then renaming it back, overriding nothing, finds the same
    configuration under the same uid again, and restores the routes exactly when none
    named the new id and those that named the old one had recorded its uid.
   */
  lemma RenameThereAndBackIff(ws: WorkingSet, oldId: Id, newId: Id, source: string, createdBy: Option<string>)
    requires Inv(ws) && RenameCluster(ws, oldId, newId, map[], None, None, source, createdBy).1.Accepted?
    ensures
      var there := RenameCluster(ws, oldId, newId, map[], None, None, source, createdBy).0;
      var (back, result) := RenameCluster(there, newId, oldId, map[], None, None, source, createdBy);
      var before, after := FindCluster(ws.clusters, oldId), FindCluster(back.clusters, oldId);
      && result.Accepted? && before.Some? && after.Some?
      && after.value.config == before.value.config && after.value.uid == before.value.uid
      && |back.routes| == |ws.routes|
      && (back.routes == ws.routes <==> forall k :: 0 <= k < |ws.routes| ==> ComesBack(ws.routes[k], oldId, newId, before.value.uid))
  {
    var there := RenameCluster(ws, oldId, newId, map[], None, None, source, createdBy).0;
    var c := FindCluster(ws.clusters, oldId).value;
    RenameLookup(ws, oldId, newId, map[], None, None, source, createdBy);
    RenamedIs(ws, oldId, newId, source, createdBy);
    RenameClusterKeeps(ws, oldId, newId, map[], None, None, source, createdBy);
    var back := RenameCluster(there, newId, oldId, map[], None, None, source, createdBy).0;
    RenamedIs(there, newId, oldId, source, createdBy);
    assert back.routes == Redirected(Redirected(ws.routes, oldId, newId, c.uid), newId, oldId, c.uid);
    forall k | 0 <= k < |ws.routes|
      ensures back.routes[k] == ws.routes[k] <==> ComesBack(ws.routes[k], oldId, newId, c.uid)
    {
      RedirectedBack(ws.routes[k], oldId, newId, c.uid);
    }
  }

  /** The renamed record, without overrides. */
  lemma RenamedIs(ws: WorkingSet, oldId: Id, newId: Id, source: string, createdBy: Option<string>)
    requires Inv(ws) && RenameRefusal(ws, oldId, newId).None?
    ensures
      var after := RenameCluster(ws, oldId, newId, map[], None, None, source, createdBy).0;
      var c := FindCluster(ws.clusters, oldId).value;
      && FindCluster(after.clusters, newId) ==
         Some(Cluster(c.config.(id := newId), c.uid, c.health, source, createdBy))
      && after.routes == Redirected(ws.routes, oldId, newId, c.uid)
  {
    var i := IndexOf(ws.clusters, ClusterKey, oldId);
    var c := Renamed(ws.clusters[i], newId, map[], None, None, source, createdBy);
    RenamedClusters(ws.clusters, i, c, ws.nextUid);
  }

  // ----- registering and removing -----

  lemma AppendedRoute(ws: WorkingSet, request: RegisterRequest, source: string, createdBy: Option<string>)
    requires Inv(ws) && FindRoute(ws.routes, request.routeName).None? && FindCluster(ws.clusters, request.clusterName).None?
    ensures
      var placed := AddRoute(ws, request, source, createdBy).0;
      && placed.routes == ws.routes + [Route(RequestedRoute(request), ws.nextUid, None, true, source, createdBy)]
      && placed.clusters == ws.clusters + [Cluster(NewClusterFor(request), ws.nextUid + 1, None, source, createdBy)]
  {
  }

  lemma AppendedGoes<T, K>(s: seq<T>, key: T -> K, x: T)
    requires Unique(s, key) && Find(s, key, key(x)).None?
    ensures Without(s + [x], key, key(x)) == s
  {
    FindAppend(s, key, x, key(x));
    IndexIs(s + [x], key, key(x), |s|);
    WithoutIsRemoveAt(s + [x], key, key(x));
  }

  /**
    Removing a route that was just registered with a cluster of its own restores the routes,
    and restores the clusters exactly when no other route names that cluster.
   */
  lemma RegistrationUndoneIff(ws: WorkingSet, request: RegisterRequest, source: string, createdBy: Option<string>)
    requires Inv(ws) && !Blank(request.routeName)
    requires FindRoute(ws.routes, request.routeName).None? && FindCluster(ws.clusters, request.clusterName).None?
    ensures
      var placed := AddRoute(ws, request, source, createdBy).0;
      var (removed, result) := RemoveRoute(placed, request.routeName, None, true);
      && result.Accepted? && removed.routes == ws.routes
      && (removed.clusters == ws.clusters <==> forall r :: r in ws.routes ==> !Names(r, request.clusterName))
  {
    var placed := AddRoute(ws, request, source, createdBy).0;
    AppendedRoute(ws, request, source, createdBy);
    AppendedGoes(ws.routes, RouteKey, placed.routes[|ws.routes|]);
    AppendedGoes(ws.clusters, ClusterKey, placed.clusters[|ws.clusters|]);
    FindAppend(ws.routes, RouteKey, placed.routes[|ws.routes|], request.routeName);
  }

  /** A client's isolated registration is undone by its own removal, whatever else names the cluster. */
  lemma IsolatedRegistrationUndone(ws: WorkingSet, request: RegisterRequest, source: string, createdBy: Option<string>, cleanUp: bool)
    requires Inv(ws) && !Blank(request.routeName) && Isolated(request)
    requires FindRoute(ws.routes, request.routeName).None? && FindCluster(ws.clusters, request.clusterName).None?
    ensures
      var placed := AddRoute(ws, request, source, createdBy).0;
      var (removed, result) := RemoveRoute(placed, request.routeName, request.clientIp, cleanUp);
      result.Accepted? && removed.routes == ws.routes && removed.clusters == ws.clusters
  {
    var placed := AddRoute(ws, request, source, createdBy).0;
    AppendedRoute(ws, request, source, createdBy);
    AppendedGoes(ws.routes, RouteKey, placed.routes[|ws.routes|]);
    AppendedGoes(ws.clusters, ClusterKey, placed.clusters[|ws.clusters|]);
    FindAppend(ws.routes, RouteKey, placed.routes[|ws.routes|], request.routeName);
    IndexIs(placed.clusters, ClusterKey, request.clusterName, |ws.clusters|);
    var key := IpIsolation.GetDestinationKey(request.clientIp.value);
    assert map[key := Destination(request.address, None)] - {key} == map[];
  }
}
