/**
  The cluster operations over the mutable records they edit in place. Each call is one
  critical section of the shared lock, and leaves the records as the operation of the same
  name on values says.
 */
module ClusterManager {
  import opened Wrappers
  import opened KeyedList
  import opened WorkingSet
  import opened ConfigRecords

  class ClusterConfigManager {
    const state: DynamicConfigState

    constructor (state: DynamicConfigState)
      ensures this.state == state
    {
      this.state := state;
    }

    /** Adds a record, or overwrites the first one with the id. */
    method PutRecord(config: ClusterConfig, health: Option<int>, keepHealth: bool, source: string, createdBy: Option<string>)
      requires state.Valid()
      modifies state`clusters, state`nextUid, state.clusters
      ensures state.Valid() && forall c :: c in state.clusters && c !in old(state.clusters) ==> fresh(c)
      ensures state.View() == PutCluster(old(state.View()), config, health, keepHealth, source, createdBy, true)
    {
      var i := state.FindCluster(config.id);
      if i == |state.clusters| {
        var _ := state.AddNewCluster(config, health, source, createdBy);
      } else {
        state.OverwriteCluster(i, config, if keepHealth then state.clusters[i].healthCheck else health, source, createdBy);
      }
    }

    method TryAddClusterConfig(cluster: ClusterConfig, source: string, createdBy: Option<string>) returns (result: OpResult)
      requires state.Valid()
      modifies state`clusters, state`nextUid, state`version, state.clusters
      ensures state.Valid()
      ensures (state.View(), result) == AddClusterConfig(old(state.View()), cluster, source, createdBy)
      ensures forall c :: c in state.clusters && c !in old(state.clusters) ==> fresh(c)
    {
      if Blank(cluster.id) {
        return Refused(EmptyId);
      }
      if |cluster.destinations| == 0 {
        return Refused(NoDestinations);
      }
      PutRecord(cluster, None, true, source, createdBy);
      state.IncrementVersion();
      result := Accepted;
    }

    method TryAddCluster(id: Id, destinations: Addresses, policy: Option<string>, health: Option<int>, source: string,
                         createdBy: Option<string>, metadata: Option<int>) returns (result: OpResult)
      requires state.Valid()
      modifies state`clusters, state`nextUid, state`version, state.clusters
      ensures state.Valid()
      ensures (state.View(), result) == AddCluster(old(state.View()), id, destinations, policy, health, source, createdBy, metadata)
      ensures forall c :: c in state.clusters && c !in old(state.clusters) ==> fresh(c)
    {
      if Blank(id) {
        return Refused(EmptyId);
      }
      if |destinations| == 0 {
        return Refused(NoDestinations);
      }
      var kept := KeptMetadata(id, metadata);
      PutRecord(ClusterConfig(id, Plain(destinations), policy, health, kept, 0), health, false, source, createdBy);
      state.IncrementVersion();
      result := Accepted;
    }

    /** A caller that passes no metadata leaves a known cluster's alone. */
    method KeptMetadata(id: Id, metadata: Option<int>) returns (kept: Option<int>)
      ensures
        var clusters := ClusterValues(state.clusters);
        var i := IndexOf(clusters, ClusterKey, id);
        kept == if metadata.None? && i < |clusters| then clusters[i].config.metadata else metadata
    {
      var i := state.FindCluster(id);
      kept := metadata;
      if metadata.None? && i < |state.clusters| {
        kept := state.clusters[i].config.metadata;
      }
    }

    method TryCreateCluster(id: Id, destinations: Addresses, policy: Option<string>, health: Option<int>, source: string,
                            createdBy: Option<string>) returns (result: OpResult)
      requires state.Valid()
      modifies state`clusters, state`nextUid, state`version
      ensures state.Valid()
      ensures (state.View(), result) == CreateCluster(old(state.View()), id, destinations, policy, health, source, createdBy)
      ensures forall c :: c in state.clusters && c !in old(state.clusters) ==> fresh(c)
    {
      var i := state.FindCluster(id);
      if i < |state.clusters| {
        return Refused(AlreadyExists);
      }
      var _ := state.AddNewCluster(ClusterConfig(id, Plain(destinations), policy, health, None, 0), health, source, createdBy);
      state.IncrementVersion();
      result := Accepted;
    }

    method TryUpdateCluster(id: Id, destinations: Option<Addresses>, policy: Option<string>, health: Option<int>)
      returns (result: OpResult)
      requires state.Valid()
      modifies state`version, state.clusters
      ensures state.Valid()
      ensures (state.View(), result) == UpdateCluster(old(state.View()), id, destinations, policy, health)
    {
      if Blank(id) {
        return Refused(EmptyId);
      }
      var i := state.FindCluster(id);
      if i == |state.clusters| {
        return Refused(NotFound);
      }
      var dc := state.clusters[i];
      var existing := dc.config;
      dc.config := existing.(
        destinations := if destinations.Some? then Plain(destinations.value) else existing.destinations,
        policy := if policy.Some? then policy else existing.policy,
        health := if health.Some? then health else existing.health);
      if health.Some? {
        dc.healthCheck := health;
      }
      state.ClusterEdited(old(state.View()), i);
      state.IncrementVersion();
      result := Accepted;
    }

    method TryRemoveCluster(id: Id) returns (result: OpResult)
      requires state.Valid()
      modifies state`clusters, state`version
      ensures state.Valid()
      ensures (state.View(), result) == RemoveCluster(old(state.View()), id)
    {
      if Blank(id) {
        return Refused(EmptyId);
      }
      var hasRef := state.IsReferenced(id);
      if hasRef {
        return Refused(Referenced);
      }
      var i := state.FindCluster(id);
      if i == |state.clusters| {
        return Refused(NotFound);
      }
      state.RemoveClusterAt(i);
      state.IncrementVersion();
      result := Accepted;
    }

    method TryRenameCluster(oldId: Id, newId: Id, destinations: Addresses, policy: Option<string>, health: Option<int>,
                            source: string, createdBy: Option<string>) returns (result: OpResult)
      requires state.Valid()
      modifies state`clusters, state`version, state.routes
      ensures state.Valid()
      ensures (state.View(), result) == RenameCluster(old(state.View()), oldId, newId, destinations, policy, health, source, createdBy)
      ensures forall c :: c in state.clusters && c !in old(state.clusters) ==> fresh(c)
    {
      var refusal, i := CheckRename(oldId, newId);
      if refusal.Some? {
        return Refused(refusal.value);
      }
      MoveTo(i, oldId, newId, destinations, policy, health, source, createdBy);
      result := Accepted;
    }

    method CheckRename(oldId: Id, newId: Id) returns (refusal: Option<Reason>, i: nat)
      ensures refusal == RenameRefusal(state.View(), oldId, newId)
      ensures refusal.None? ==> i == IndexOf(state.View().clusters, ClusterKey, oldId)
    {
      if Blank(oldId) || Blank(newId) {
        return Some(EmptyId), 0;
      }
      if oldId == newId {
        return Some(SameId), 0;
      }
      i := state.FindCluster(oldId);
      if i == |state.clusters| {
        return Some(NotFound), i;
      }
      var j := state.FindCluster(newId);
      refusal := if j < |state.clusters| then Some(AlreadyExists) else None;
    }

    /** The record under its new id, and the routes that named the old one. */
    method MoveTo(i: nat, oldId: Id, newId: Id, destinations: Addresses, policy: Option<string>, health: Option<int>,
                  source: string, createdBy: Option<string>)
      requires state.Valid() && i < |state.clusters|
      modifies state`clusters, state`version, state.routes
      ensures state.Valid() && forall c :: c in state.clusters && c !in old(state.clusters) ==> fresh(c)
      ensures state.View() == Commit(old(state.View()).(
                clusters := RemoveAt(old(state.View()).clusters, i)
                            + [Renamed(old(state.View()).clusters[i], newId, destinations, policy, health, source, createdBy)],
                routes := Redirected(old(state.View()).routes, oldId, newId, old(state.View()).clusters[i].uid)))
    {
      var uid := state.clusters[i].clusterUid;
      RenameRecord(i, newId, destinations, policy, health, source, createdBy);
      RedirectRoutes(oldId, newId, uid);
      state.IncrementVersion();
    }

    /** A renamed cluster is a new record at the end of the list, under the old uid. */
    method RenameRecord(i: nat, newId: Id, destinations: Addresses, policy: Option<string>, health: Option<int>,
                        source: string, createdBy: Option<string>)
      requires state.Valid() && i < |state.clusters|
      modifies state`clusters
      ensures state.Valid() && forall c :: c in state.clusters && c !in old(state.clusters) ==> fresh(c)
      ensures state.View() == old(state.View()).(
                clusters := RemoveAt(old(state.View()).clusters, i)
                            + [Renamed(old(state.View()).clusters[i], newId, destinations, policy, health, source, createdBy)])
    {
      var oldDc := state.clusters[i];
      var newCluster := oldDc.config.(
        id := newId,
        destinations := if |destinations| > 0 then Plain(destinations) else oldDc.config.destinations,
        policy := if policy.Some? then policy else oldDc.config.policy,
        health := if health.Some? then health else oldDc.config.health);
      var dc := new DynamicClusterConfig(newCluster, oldDc.clusterUid,
                                         if health.Some? then health else oldDc.healthCheck, source, createdBy);
      var rest := RemoveAt(state.clusters, i);
      DistinctRemove(state.clusters, i);
      DistinctAppend(rest, dc);
      ClusterValuesRemove(state.clusters, i);
      ClusterValuesAppend(rest, dc);
      state.clusters := rest + [dc];
    }

    /** Points every route that names the old id at the new one. */
    method RedirectRoutes(oldId: Id, newId: Id, uid: Uid)
      requires state.Valid()
      modifies state.routes
      ensures state.View() == old(state.View()).(routes := Redirected(old(state.View()).routes, oldId, newId, uid))
    {
      var k := 0;
      while k < |state.routes|
        invariant k <= |state.routes|
        invariant forall j :: 0 <= j < k ==>
                    state.routes[j].Value() == Redirected(old(RouteValues(state.routes)), oldId, newId, uid)[j]
        invariant forall j :: k <= j < |state.routes| ==> state.routes[j].Value() == old(RouteValues(state.routes))[j]
      {
        var dr := state.routes[k];
        if dr.config.clusterId == Some(oldId) {
          dr.clusterUid := Some(uid);
          dr.config := dr.config.(clusterId := Some(newId));
        }
        k := k + 1;
      }
    }
  }
}
