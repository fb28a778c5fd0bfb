/**
  IP isolation: one destination per registered client address, found again by its key.
  Cluster ids are canonical (compared case-insensitively by the code) and so are addresses.
 */
module IpIsolation {
  import opened KeyedList
  import opened Wrappers

  // ----- destination keys -----

  function Replaced(s: string, from: char, to: char): (r: string)
    ensures |r| == |s| && forall i :: 0 <= i < |s| ==> r[i] == if s[i] == from then to else s[i]
  {
    seq(|s|, i requires 0 <= i < |s| => if s[i] == from then to else s[i])
  }

  function GetDestinationKey(clientIp: string): string {
    "ip-" + Replaced(clientIp, '.', '-')
  }

  /** Fills a character span, one character at a time. */
  method RestoreIpAddress(keySpan: string) returns (r: string)
    ensures r == Replaced(keySpan, '-', '.')
  {
    if |keySpan| == 0 {
      return "";
    }
    var span := new char[|keySpan|];
    var i := 0;
    while i < |keySpan|
      invariant 0 <= i <= |keySpan|
      invariant forall j :: 0 <= j < i ==> span[j] == if keySpan[j] == '-' then '.' else keySpan[j]
    {
      span[i] := if keySpan[i] == '-' then '.' else keySpan[i];
      i := i + 1;
    }
    r := span[..];
  }

  predicate DashFree(s: string) { '-' !in s }

  function AddressOfKey(key: string): string
    requires |key| >= 3
  {
    Replaced(key[3..], '-', '.')
  }

  /** Restoring inverts key building exactly on addresses without a dash. */
  lemma KeyRoundTripIff(ip: string)
    ensures AddressOfKey(GetDestinationKey(ip)) == ip <==> DashFree(ip)
  {
    var key := GetDestinationKey(ip);
    assert key[3..] == Replaced(ip, '.', '-');
    var back := AddressOfKey(key);
    if !DashFree(ip) {
      var i :| 0 <= i < |ip| && ip[i] == '-';
      assert back[i] == '.';
    } else {
      forall i | 0 <= i < |ip|
        ensures back[i] == ip[i]
      {
        assert ip[i] in ip;
      }
    }
  }

  /** Equal up to dots and dashes. */
  predicate SameUpToDashes(ip: string, ip': string) {
    |ip| == |ip'| && forall i :: 0 <= i < |ip| ==> ip[i] == ip'[i] || (ip[i] in ".-" && ip'[i] in ".-")
  }

  /** Two addresses share a key exactly when they differ in dots and dashes alone. */
  lemma KeysCollideIff(ip: string, ip': string)
    ensures GetDestinationKey(ip) == GetDestinationKey(ip') <==> SameUpToDashes(ip, ip')
  {
    var r, r' := Replaced(ip, '.', '-'), Replaced(ip', '.', '-');
    assert GetDestinationKey(ip)[3..] == r && GetDestinationKey(ip')[3..] == r';
    assert r == r' <==> SameUpToDashes(ip, ip') by {
      if SameUpToDashes(ip, ip') {
        assert forall i :: 0 <= i < |ip| ==> r[i] == r'[i];
      } else if |ip| == |ip'| {
        var i :| 0 <= i < |ip| && !(ip[i] == ip'[i] || (ip[i] in ".-" && ip'[i] in ".-"));
        assert r[i] != r'[i];
      }
    }
  }

  /** Distinct dash-free addresses get distinct keys. */
  lemma KeysDiffer(ip: string, ip': string)
    requires DashFree(ip) && DashFree(ip') && GetDestinationKey(ip) == GetDestinationKey(ip')
    ensures ip == ip'
  {
    KeyRoundTripIff(ip);
    KeyRoundTripIff(ip');
  }

  // ----- clusters -----

  datatype Destination = Destination(address: string, clientIp: Option<string>)

  datatype Cluster = Cluster(
    id: string,
    destinations: map<string, Destination>,
    policy: Option<string>,
    healthCheck: Option<int>,
    metadata: Option<int>)

  const IP_BASED := "IpBased"

  predicate Blank(s: string) {
    forall c :: c in s ==> c in " \t\r\n"
  }

  function IdOf(c: Cluster): string { c.id }

  function EnsureIp(clusters: seq<Cluster>, name: string, ip: string, address: string): seq<Cluster> {
    var i, key, dest := IndexOf(clusters, IdOf, name), GetDestinationKey(ip), Destination(address, Some(ip));
    if i < |clusters| then
      var existing := clusters[i];
      clusters[i := Cluster(name, existing.destinations[key := dest],
                            if existing.policy.None? then Some(IP_BASED) else existing.policy,
                            existing.healthCheck, None)]
    else
      clusters + [Cluster(name, map[key := dest], Some(IP_BASED), None, None)]
  }

  function EnsureNormal(clusters: seq<Cluster>, name: string, address: string): seq<Cluster> {
    var i, dests := IndexOf(clusters, IdOf, name), map["d1" := Destination(address, None)];
    if Blank(address) then clusters
    else if i < |clusters| then clusters[i := Cluster(name, dests, None, clusters[i].healthCheck, None)]
    else clusters + [Cluster(name, dests, None, None, None)]
  }

  function RemoveIp(clusters: seq<Cluster>, name: string, ip: string): seq<Cluster> {
    var i, key := IndexOf(clusters, IdOf, name), GetDestinationKey(ip);
    if i == |clusters| || key !in clusters[i].destinations then clusters
    else
      var rest := clusters[i].destinations - {key};
      if rest == map[] then RemoveAt(clusters, i)
      else clusters[i := Cluster(clusters[i].id, rest, clusters[i].policy, None, clusters[i].metadata)]
  }

  /** The list object the helpers edit in place. */
  class ClusterList {
    var items: seq<Cluster>

    constructor ()
      ensures items == []
    {
      items := [];
    }

    method FindIndex(name: string) returns (i: nat)
      ensures i == IndexOf(items, IdOf, name)
    {
      i := 0;
      while i < |items| && items[i].id != name
        invariant i <= |items|
        invariant IndexOf(items, IdOf, name) == i + IndexOf(items[i..], IdOf, name)
      {
        i := i + 1;
      }
    }

    method EnsureIpCluster(name: string, clientIp: string, address: string)
      modifies this
      ensures items == EnsureIp(old(items), name, clientIp, address)
    {
      var destKey := GetDestinationKey(clientIp);
      var i := FindIndex(name);
      if i < |items| {
        var existing := items[i];
        var destinations := existing.destinations;
        destinations := destinations[destKey := Destination(address, Some(clientIp))];
        items := items[i := Cluster(name, destinations,
                                    if existing.policy.None? then Some(IP_BASED) else existing.policy,
                                    existing.healthCheck, None)];
      } else {
        items := items + [Cluster(name, map[destKey := Destination(address, Some(clientIp))], Some(IP_BASED), None, None)];
      }
    }

    method EnsureNormalCluster(name: string, address: string)
      modifies this
      ensures items == EnsureNormal(old(items), name, address)
    {
      var i := FindIndex(name);
      if i < |items| {
        if !Blank(address) {
          items := items[i := Cluster(name, map["d1" := Destination(address, None)], None, items[i].healthCheck, None)];
        }
      } else if !Blank(address) {
        items := items + [Cluster(name, map["d1" := Destination(address, None)], None, None, None)];
      }
    }

    /** Leaves this list alone and returns an edited copy. */
    method RemoveIpDestination(clusterId: string, clientIp: string)
      returns (clusters: seq<Cluster>, clusterRemoved: bool, found: bool)
      ensures clusters == RemoveIp(items, clusterId, clientIp)
      ensures found <==> clusters != items
      ensures clusterRemoved <==> |clusters| < |items|
    {
      var destKey := GetDestinationKey(clientIp);
      var i := FindIndex(clusterId);
      if i == |items| || destKey !in items[i].destinations {
        return items, false, false;
      }
      var destinations := items[i].destinations - {destKey};
      if |destinations| == 0 {
        return RemoveAt(items, i), true, true;
      }
      clusters := items[i := Cluster(items[i].id, destinations, items[i].policy, None, items[i].metadata)];
      assert clusters[i].destinations != items[i].destinations;
      return clusters, false, true;
    }
  }

  // ----- histories -----

  datatype Op =
    | Ensure(name: string, ip: string, address: string)
    | Normal(name: string, address: string)
    | Remove(name: string, ip: string)

  function Apply(clusters: seq<Cluster>, op: Op): seq<Cluster> {
    match op
    case Ensure(name, ip, address) => EnsureIp(clusters, name, ip, address)
    case Normal(name, address) => EnsureNormal(clusters, name, address)
    case Remove(name, ip) => RemoveIp(clusters, name, ip)
  }

  function ApplyAll(ops: seq<Op>): seq<Cluster> {
    if ops == [] then [] else Apply(ApplyAll(ops[..|ops| - 1]), ops[|ops| - 1])
  }

  /** What the history says a client's address is: its last registration not undone since. */
  function Registered(ops: seq<Op>, name: string, ip: string): Option<string> {
    if ops == [] then None
    else
      var before := Registered(ops[..|ops| - 1], name, ip);
      match ops[|ops| - 1]
      case Ensure(n, i, address) => if n == name && i == ip then Some(address) else before
      case Normal(n, address) => if n == name && !Blank(address) then None else before
      case Remove(n, i) => if n == name && i == ip then None else before
  }

  ghost predicate DashFreeHistory(ops: seq<Op>) {
    forall i :: 0 <= i < |ops| && !ops[i].Normal? ==> DashFree(ops[i].ip)
  }

  /** The destinations of a named cluster; none when it does not exist. */
  function DestinationsOf(clusters: seq<Cluster>, name: string): map<string, Destination> {
    match Find(clusters, IdOf, name)
    case Some(c) => c.destinations
    case None => map[]
  }

  function PolicyOf(clusters: seq<Cluster>, name: string): Option<string> {
    match Find(clusters, IdOf, name)
    case Some(c) => c.policy
    case None => None
  }

  /** A destination is either the plain one or belongs to the client its key names. */
  ghost predicate EntryOk(key: string, dest: Destination) {
    (key == "d1" && dest.clientIp == None)
    || (dest.clientIp.Some? && DashFree(dest.clientIp.value) && key == GetDestinationKey(dest.clientIp.value))
  }

  ghost predicate ClusterOk(c: Cluster) {
    && (forall key :: key in c.destinations ==> EntryOk(key, c.destinations[key]))
    && (c.policy == None || c.policy == Some(IP_BASED))
    && (forall key :: key in c.destinations && key != "d1" ==> c.policy == Some(IP_BASED))
  }

  ghost predicate Ok(clusters: seq<Cluster>) {
    Unique(clusters, IdOf) && forall c :: c in clusters ==> ClusterOk(c)
  }

  lemma ApplyKeepsOk(clusters: seq<Cluster>, op: Op)
    requires Ok(clusters) && (!op.Normal? ==> DashFree(op.ip))
    ensures Ok(Apply(clusters, op))
  {
    var i := IndexOf(clusters, IdOf, op.name);
    var after := Apply(clusters, op);
    if i < |clusters| {
      assert ClusterOk(clusters[i]);
      if |after| == |clusters| {
        if after != clusters {
          assert after == clusters[i := after[i]];
          FindUpdate(clusters, IdOf, i, after[i], op.name);
          UpdatedOk(clusters[i], after[i], op);
          assert forall c :: c in after ==> c == after[i] || c in clusters;
        }
      } else {
        FindRemove(clusters, IdOf, i, op.name);
        assert forall c :: c in after ==> c in clusters;
      }
    } else if after != clusters {
      FindAppend(clusters, IdOf, after[|clusters|], op.name);
      UpdatedOk(Cluster(op.name, map[], None, None, None), after[|clusters|], op);
      assert forall c :: c in after ==> c == after[|clusters|] || c in clusters;
    }
  }

  lemma UpdatedOk(c: Cluster, c': Cluster, op: Op)
    requires ClusterOk(c) && (!op.Normal? ==> DashFree(op.ip))
    requires match op
             case Ensure(_, ip, address) =>
               c'.destinations == c.destinations[GetDestinationKey(ip) := Destination(address, Some(ip))]
               && c'.policy == if c.policy.None? then Some(IP_BASED) else c.policy
             case Normal(_, address) => c'.destinations == map["d1" := Destination(address, None)] && c'.policy == None
             case Remove(_, ip) => c'.destinations == c.destinations - {GetDestinationKey(ip)} && c'.policy == c.policy
    ensures ClusterOk(c')
  {
  }

  /** What one call makes of the destinations of the cluster it is about. */
  function Edited(before: map<string, Destination>, op: Op): map<string, Destination> {
    match op
    case Ensure(_, ip, address) => before[GetDestinationKey(ip) := Destination(address, Some(ip))]
    case Normal(_, address) => if Blank(address) then before else map["d1" := Destination(address, None)]
    case Remove(_, ip) => before - {GetDestinationKey(ip)}
  }

  lemma EnsureLookup(clusters: seq<Cluster>, n: string, ip: string, address: string, name: string)
    requires Unique(clusters, IdOf)
    ensures DestinationsOf(EnsureIp(clusters, n, ip, address), name) ==
            if n == name then Edited(DestinationsOf(clusters, name), Ensure(n, ip, address)) else DestinationsOf(clusters, name)
  {
    var i, after := IndexOf(clusters, IdOf, n), EnsureIp(clusters, n, ip, address);
    if i < |clusters| {
      FindUpdate(clusters, IdOf, i, after[i], name);
    } else {
      FindAppend(clusters, IdOf, after[i], name);
    }
  }

  lemma NormalLookup(clusters: seq<Cluster>, n: string, address: string, name: string)
    requires Unique(clusters, IdOf)
    ensures DestinationsOf(EnsureNormal(clusters, n, address), name) ==
            if n == name then Edited(DestinationsOf(clusters, name), Normal(n, address)) else DestinationsOf(clusters, name)
  {
    var i, after := IndexOf(clusters, IdOf, n), EnsureNormal(clusters, n, address);
    if !Blank(address) {
      if i < |clusters| {
        FindUpdate(clusters, IdOf, i, after[i], name);
      } else {
        FindAppend(clusters, IdOf, after[i], name);
      }
    }
  }

  lemma RemoveLookup(clusters: seq<Cluster>, n: string, ip: string, name: string)
    requires Unique(clusters, IdOf)
    ensures DestinationsOf(RemoveIp(clusters, n, ip), name) ==
            if n == name then Edited(DestinationsOf(clusters, name), Remove(n, ip)) else DestinationsOf(clusters, name)
  {
    var i, after := IndexOf(clusters, IdOf, n), RemoveIp(clusters, n, ip);
    if i < |clusters| && GetDestinationKey(ip) in clusters[i].destinations {
      if |after| < |clusters| {
        FindRemove(clusters, IdOf, i, name);
      } else {
        FindUpdate(clusters, IdOf, i, after[i], name);
      }
    }
  }

  /** One call changes exactly the destination it is about; a plain registration replaces them all. */
  lemma ApplyLookup(clusters: seq<Cluster>, op: Op, name: string)
    requires Unique(clusters, IdOf)
    ensures DestinationsOf(Apply(clusters, op), name) ==
            if op.name == name then Edited(DestinationsOf(clusters, name), op) else DestinationsOf(clusters, name)
  {
    match op
    case Ensure(n, ip, address) => EnsureLookup(clusters, n, ip, address, name);
    case Normal(n, address) => NormalLookup(clusters, n, address, name);
    case Remove(n, ip) => RemoveLookup(clusters, n, ip, name);
  }

  lemma {:induction false} HistoryOk(ops: seq<Op>)
    requires DashFreeHistory(ops)
    ensures Ok(ApplyAll(ops))
  {
    if ops != [] {
      HistoryOk(ops[..|ops| - 1]);
      ApplyKeepsOk(ApplyAll(ops[..|ops| - 1]), ops[|ops| - 1]);
    }
  }

  /** The stored destination of a client is the one its registration history says. */
  lemma {:induction false} StoresRegistration(ops: seq<Op>, name: string, ip: string)
    requires DashFreeHistory(ops) && DashFree(ip)
    ensures
      var dests, key := DestinationsOf(ApplyAll(ops), name), GetDestinationKey(ip);
      match Registered(ops, name, ip)
      case Some(address) => key in dests && dests[key] == Destination(address, Some(ip))
      case None => key !in dests
  {
    if ops != [] {
      var init, op := ops[..|ops| - 1], ops[|ops| - 1];
      HistoryOk(init);
      StoresRegistration(init, name, ip);
      ApplyLookup(ApplyAll(init), op, name);
      if !op.Normal? {
        if GetDestinationKey(op.ip) == GetDestinationKey(ip) {
          KeysDiffer(op.ip, ip);
        }
      } else {
        assert GetDestinationKey(ip) != "d1" by {
          assert GetDestinationKey(ip)[0] == 'i';
        }
      }
    }
  }

  // ----- any addresses -----

  lemma ApplyKeepsUnique(clusters: seq<Cluster>, op: Op)
    requires Unique(clusters, IdOf)
    ensures Unique(Apply(clusters, op), IdOf)
  {
    var i, after := IndexOf(clusters, IdOf, op.name), Apply(clusters, op);
    if i == |clusters| {
      if after != clusters {
        FindAppend(clusters, IdOf, after[i], op.name);
      }
    } else if |after| < |clusters| {
      FindRemove(clusters, IdOf, i, op.name);
    } else if after != clusters {
      FindUpdate(clusters, IdOf, i, after[i], op.name);
    }
  }

  lemma {:induction false} HistoryUnique(ops: seq<Op>)
    ensures Unique(ApplyAll(ops), IdOf)
  {
    if ops != [] {
      HistoryUnique(ops[..|ops| - 1]);
      ApplyKeepsUnique(ApplyAll(ops[..|ops| - 1]), ops[|ops| - 1]);
    }
  }

  /** What a history leaves under a client key, whoever it was written for. */
  function LeftUnderKey(ops: seq<Op>, name: string, key: string): Option<Destination> {
    if ops == [] then None
    else
      var before := LeftUnderKey(ops[..|ops| - 1], name, key);
      match ops[|ops| - 1]
      case Ensure(n, i, address) => if n == name && GetDestinationKey(i) == key then Some(Destination(address, Some(i))) else before
      case Normal(n, address) => if n == name && !Blank(address) then None else before
      case Remove(n, i) => if n == name && GetDestinationKey(i) == key then None else before
  }

  /** The destination under a client key, after any history of calls with any addresses. */
  lemma {:induction false} StoresLeftUnderKey(ops: seq<Op>, name: string, key: string)
    requires key != "d1"
    ensures
      var dests := DestinationsOf(ApplyAll(ops), name);
      match LeftUnderKey(ops, name, key)
      case Some(d) => key in dests && dests[key] == d
      case None => key !in dests
  {
    if ops != [] {
      var init, op := ops[..|ops| - 1], ops[|ops| - 1];
      HistoryUnique(init);
      StoresLeftUnderKey(init, name, key);
      ApplyLookup(ApplyAll(init), op, name);
    }
  }

  /** A client call on the cluster for another address that shares the client's key. */
  predicate Intrudes(op: Op, name: string, ip: string) {
    op.name == name && !op.Normal? && op.ip != ip && GetDestinationKey(op.ip) == GetDestinationKey(ip)
  }

  /** A registration of the client that no later call for another address under its key follows. */
  ghost predicate Undisturbed(ops: seq<Op>, name: string, ip: string) {
    exists j :: 0 <= j < |ops| && ops[j].Ensure? && ops[j].name == name && ops[j].ip == ip
                && forall k :: j < k < |ops| ==> !Intrudes(ops[k], name, ip)
  }

  lemma UndisturbedStep(ops: seq<Op>, name: string, ip: string)
    requires ops != []
    ensures
      var init, op := ops[..|ops| - 1], ops[|ops| - 1];
      Undisturbed(ops, name, ip) <==>
        (op.Ensure? && op.name == name && op.ip == ip) || (Undisturbed(init, name, ip) && !Intrudes(op, name, ip))
  {
    var n := |ops| - 1;
    var init, op := ops[..n], ops[n];
    if Undisturbed(ops, name, ip) {
      var j :| 0 <= j < |ops| && ops[j].Ensure? && ops[j].name == name && ops[j].ip == ip
               && forall k :: j < k < |ops| ==> !Intrudes(ops[k], name, ip);
      if j < n {
        assert init[j] == ops[j] && forall k :: j < k < n ==> init[k] == ops[k];
        assert !Intrudes(ops[n], name, ip);
      }
    }
    if Undisturbed(init, name, ip) && !Intrudes(op, name, ip) {
      var j :| 0 <= j < n && init[j].Ensure? && init[j].name == name && init[j].ip == ip
               && forall k :: j < k < n ==> !Intrudes(init[k], name, ip);
      assert ops[j] == init[j];
      forall k | j < k < |ops|
        ensures !Intrudes(ops[k], name, ip)
      {
        assert k < n ==> ops[k] == init[k];
      }
    }
    if op.Ensure? && op.name == name && op.ip == ip {
      assert ops[n] == op;
    }
  }

  /** What is left under a client's key is its own registration exactly when that one was not disturbed. */
  lemma {:induction false} OwnLeftIff(ops: seq<Op>, name: string, ip: string)
    requires Registered(ops, name, ip).Some?
    ensures
      var left := LeftUnderKey(ops, name, GetDestinationKey(ip));
      && (left == Some(Destination(Registered(ops, name, ip).value, Some(ip))) <==> Undisturbed(ops, name, ip))
      && (!Undisturbed(ops, name, ip) ==> left.None? || left.value.clientIp != Some(ip))
  {
    var init, op := ops[..|ops| - 1], ops[|ops| - 1];
    UndisturbedStep(ops, name, ip);
    if !(op.Ensure? && op.name == name && op.ip == ip) {
      OwnLeftIff(init, name, ip);
    }
  }

  /**
    For any addresses: a client's stored destination is its last registration exactly when
    no later call on the cluster, for another address with the same key, replaced or
    removed it.
   */
  lemma StoresRegistrationIff(ops: seq<Op>, name: string, ip: string)
    requires Registered(ops, name, ip).Some?
    ensures
      var dests, key := DestinationsOf(ApplyAll(ops), name), GetDestinationKey(ip);
      key in dests && dests[key] == Destination(Registered(ops, name, ip).value, Some(ip)) <==> Undisturbed(ops, name, ip)
  {
    assert GetDestinationKey(ip)[0] == 'i';
    StoresLeftUnderKey(ops, name, GetDestinationKey(ip));
    OwnLeftIff(ops, name, ip);
  }

  // ----- what a call does to the other fields -----

  /** Whether a call drops the metadata, or the health check, of the cluster it is about. */
  predicate DropsMetadata(op: Op) {
    op.Ensure? || (op.Normal? && !Blank(op.address))
  }

  predicate DropsHealthCheck(c: Cluster, op: Op) {
    op.Remove? && GetDestinationKey(op.ip) in c.destinations
  }

  /**
    A cluster that is there before and after a call of a helper keeps its metadata exactly
    when it had none or the call did not register anything in it, and its health check
    exactly when it had none or the call removed nothing from it.
   */
  lemma FieldsSurviveIff(clusters: seq<Cluster>, op: Op, id: string)
    requires Unique(clusters, IdOf)
    requires Find(clusters, IdOf, id).Some? && Find(Apply(clusters, op), IdOf, id).Some?
    ensures
      var before, after := Find(clusters, IdOf, id).value, Find(Apply(clusters, op), IdOf, id).value;
      && (after.metadata == before.metadata <==> before.metadata.None? || op.name != id || !DropsMetadata(op))
      && (after.healthCheck == before.healthCheck <==>
            before.healthCheck.None? || op.name != id || !DropsHealthCheck(before, op))
  {
    if op.name != id {
      OtherClusterStays(clusters, op, id);
    } else {
      match op
      case Ensure(_, _, _) => EnsureRecord(clusters, op, id);
      case Normal(_, _) => NormalRecord(clusters, op, id);
      case Remove(_, _) => RemoveRecord(clusters, op, id);
    }
  }

  lemma OtherClusterStays(clusters: seq<Cluster>, op: Op, id: string)
    requires Unique(clusters, IdOf) && op.name != id
    ensures Find(Apply(clusters, op), IdOf, id) == Find(clusters, IdOf, id)
  {
    var i, after := IndexOf(clusters, IdOf, op.name), Apply(clusters, op);
    if i == |clusters| {
      if after != clusters {
        FindAppend(clusters, IdOf, after[i], id);
      }
    } else if |after| < |clusters| {
      FindRemove(clusters, IdOf, i, id);
    } else if after != clusters {
      FindUpdate(clusters, IdOf, i, after[i], id);
    }
  }

  /** A client's registration keeps a policy and a health check that are there, and drops the metadata. */
  lemma EnsureRecord(clusters: seq<Cluster>, op: Op, id: string)
    requires Unique(clusters, IdOf) && op.Ensure? && op.name == id
    ensures
      var before, after := Find(clusters, IdOf, id), Find(Apply(clusters, op), IdOf, id);
      && after.Some? && after.value.metadata.None?
      && after.value.healthCheck == (if before.Some? then before.value.healthCheck else None)
      && after.value.policy == if before.Some? && before.value.policy.Some? then before.value.policy else Some("IpBased")
  {
    var i, after := IndexOf(clusters, IdOf, id), Apply(clusters, op);
    if i < |clusters| {
      FindUpdate(clusters, IdOf, i, after[i], id);
    } else {
      FindAppend(clusters, IdOf, after[i], id);
    }
  }

  /** A plain registration with an address keeps the health check alone; without one it does nothing. */
  lemma NormalRecord(clusters: seq<Cluster>, op: Op, id: string)
    requires Unique(clusters, IdOf) && op.Normal? && op.name == id
    ensures
      var before, after := Find(clusters, IdOf, id), Find(Apply(clusters, op), IdOf, id);
      if Blank(op.address) then after == before
      else
        && after.Some? && after.value.policy.None? && after.value.metadata.None?
        && after.value.healthCheck == if before.Some? then before.value.healthCheck else None
  {
    var i, after := IndexOf(clusters, IdOf, id), Apply(clusters, op);
    if !Blank(op.address) {
      if i < |clusters| {
        FindUpdate(clusters, IdOf, i, after[i], id);
      } else {
        FindAppend(clusters, IdOf, after[i], id);
      }
    }
  }

  /**
    Removing a client's destination takes the cluster away when that was its last one, and
    drops the health check otherwise; without such a destination nothing changes.
   */
  lemma RemoveRecord(clusters: seq<Cluster>, op: Op, id: string)
    requires Unique(clusters, IdOf) && op.Remove? && op.name == id
    ensures
      var before, after := Find(clusters, IdOf, id), Find(Apply(clusters, op), IdOf, id);
      if before.None? || GetDestinationKey(op.ip) !in before.value.destinations then after == before
      else if before.value.destinations.Keys == {GetDestinationKey(op.ip)} then after.None?
      else
        && after.Some? && after.value.policy == before.value.policy && after.value.metadata == before.value.metadata
        && after.value.healthCheck.None?
  {
    var i, after := IndexOf(clusters, IdOf, id), Apply(clusters, op);
    if i < |clusters| && GetDestinationKey(op.ip) in clusters[i].destinations {
      var rest := clusters[i].destinations - {GetDestinationKey(op.ip)};
      assert rest.Keys == clusters[i].destinations.Keys - {GetDestinationKey(op.ip)};
      if rest == map[] {
        assert rest.Keys == {};
        assert clusters[i].destinations.Keys == {GetDestinationKey(op.ip)};
        FindRemove(clusters, IdOf, i, id);
      } else {
        assert exists key :: key in rest;
        FindUpdate(clusters, IdOf, i, after[i], id);
      }
    }
  }

  // ----- picking a destination -----

  /** A destination as the proxy offers it; its metadata may have been lost on reload. */
  datatype DestinationState = DestinationState(id: string, address: string, clientIp: Option<string>)

  predicate Matches(d: DestinationState, ip: string) {
    d.clientIp == Some(ip) || (|d.id| >= 3 && d.id[..3] == "ip-" && AddressOfKey(d.id) == ip)
  }

  function FirstMatch(available: seq<DestinationState>, ip: string, fallback: DestinationState): DestinationState {
    if available == [] then fallback
    else if Matches(available[0], ip) then available[0]
    else FirstMatch(available[1..], ip, fallback)
  }

  function Pick(available: seq<DestinationState>, clientIp: Option<string>): Option<DestinationState> {
    if available == [] then None
    else if |available| == 1 || clientIp.None? then Some(available[0])
    else Some(FirstMatch(available, clientIp.value, available[0]))
  }

  /** The search over the available destinations, in whatever order they come. */
  method PickDestination(available: seq<DestinationState>, clientIp: Option<string>) returns (r: Option<DestinationState>)
    ensures r == Pick(available, clientIp)
  {
    if |available| == 0 {
      return None;
    }
    if |available| == 1 || clientIp.None? {
      return Some(available[0]);
    }
    var i := 0;
    while i < |available|
      invariant 0 <= i <= |available|
      invariant FirstMatch(available, clientIp.value, available[0]) == FirstMatch(available[i..], clientIp.value, available[0])
    {
      var dest := available[i];
      if dest.clientIp == Some(clientIp.value) {
        return Some(dest);
      }
      if |dest.id| >= 3 && dest.id[..3] == "ip-" {
        var restored := RestoreIpAddress(dest.id[3..]);
        if restored == clientIp.value {
          return Some(dest);
        }
      }
      i := i + 1;
    }
    r := Some(available[0]);
  }

  /** The search yields a match when there is one, and never invents a destination. */
  lemma {:induction false} FirstMatchMatches(available: seq<DestinationState>, ip: string, fallback: DestinationState)
    ensures var r := FirstMatch(available, ip, fallback);
            if exists d :: d in available && Matches(d, ip) then r in available && Matches(r, ip) else r == fallback
  {
    if available != [] && !Matches(available[0], ip) {
      FirstMatchMatches(available[1..], ip, fallback);
      assert forall d :: d in available ==> d == available[0] || d in available[1..];
    }
  }

  /** A destination that names a client: by its metadata, or by a key that reads as the address with dashes for dots. */
  predicate Names(d: DestinationState, ip: string) {
    || d.clientIp == Some(ip)
    || (|d.id| == |ip| + 3 && d.id[..3] == "ip-"
        && forall i :: 0 <= i < |ip| ==> ip[i] == if d.id[i + 3] == '-' then '.' else d.id[i + 3])
  }

  lemma MatchesIff(d: DestinationState, ip: string)
    ensures Matches(d, ip) <==> Names(d, ip)
  {
    if |d.id| >= 3 && d.id[..3] == "ip-" {
      var restored := AddressOfKey(d.id);
      assert |restored| == |d.id| - 3;
      assert forall i :: 0 <= i < |restored| ==> restored[i] == if d.id[i + 3] == '-' then '.' else d.id[i + 3];
      if Names(d, ip) && d.clientIp != Some(ip) {
        assert restored == ip;
      }
    }
  }

  /** The position of the first destination that names the client, or the length of the list when none does. */
  ghost predicate FirstNamedAt(available: seq<DestinationState>, ip: string, k: nat) {
    && k <= |available|
    && (forall j :: 0 <= j < k ==> !Names(available[j], ip))
    && (k < |available| ==> Names(available[k], ip))
  }

  /**
    The destination picked: nothing of nothing, the first one for a request without a client
    address, else the first one that names the client, and the first of all when none does.
   */
  lemma PickIs(available: seq<DestinationState>, ip: string, k: nat)
    requires FirstNamedAt(available, ip, k)
    ensures Pick(available, Some(ip)) ==
            if k < |available| then Some(available[k]) else if available != [] then Some(available[0]) else None
    ensures Pick(available, None) == if available != [] then Some(available[0]) else None
  {
    if available != [] {
      FirstMatchIs(available, ip, available[0], k);
    }
  }

  lemma {:induction false} FirstMatchIs(available: seq<DestinationState>, ip: string, fallback: DestinationState, k: nat)
    requires FirstNamedAt(available, ip, k)
    ensures FirstMatch(available, ip, fallback) == if k < |available| then available[k] else fallback
  {
    if available != [] {
      MatchesIff(available[0], ip);
      if k > 0 {
        assert forall j :: 0 <= j < |available[1..]| ==> available[1..][j] == available[j + 1];
        FirstMatchIs(available[1..], ip, fallback, k - 1);
      }
    }
  }

  /** What the proxy may offer of a cluster: its own destinations, metadata kept or dropped. */
  ghost predicate OfferedBy(available: seq<DestinationState>, dests: map<string, Destination>) {
    forall d :: d in available ==>
      d.id in dests && d.address == dests[d.id].address && (d.clientIp == None || d.clientIp == dests[d.id].clientIp)
  }

  /** Among the destinations of one cluster only the client's own one matches its address. */
  lemma OnlyOwnMatches(key: string, dest: Destination, d: DestinationState, ip: string)
    requires EntryOk(key, dest) && DashFree(ip)
    requires d.id == key && (d.clientIp == None || d.clientIp == dest.clientIp)
    ensures Matches(d, ip) <==> key == GetDestinationKey(ip)
  {
    KeyRoundTripIff(ip);
    if dest.clientIp.Some? {
      KeyRoundTripIff(dest.clientIp.value);
      assert key[..3] == "ip-";
    } else {
      assert GetDestinationKey(ip)[0] == 'i';
    }
  }

  /**
    A client whose last call on a cluster registered an address is routed to it: whenever
    its destination is available it is the one picked, for any order of any subset of the
    cluster's destinations, with any metadata lost, and the cluster carries the IP policy.
   */
  lemma RoutedToRegistered(ops: seq<Op>, name: string, ip: string, available: seq<DestinationState>)
    requires DashFreeHistory(ops) && DashFree(ip)
    requires OfferedBy(available, DestinationsOf(ApplyAll(ops), name))
    requires exists d :: d in available && d.id == GetDestinationKey(ip)
    ensures
      var r := Pick(available, Some(ip));
      && r.Some? && r.value.id == GetDestinationKey(ip)
      && Registered(ops, name, ip) == Some(r.value.address)
    ensures PolicyOf(ApplyAll(ops), name) == Some(IP_BASED)
  {
    var clusters := ApplyAll(ops);
    var dests := DestinationsOf(clusters, name);
    HistoryOk(ops);
    StoresRegistration(ops, name, ip);
    var own :| own in available && own.id == GetDestinationKey(ip);
    assert clusters[IndexOf(clusters, IdOf, name)] in clusters;
    assert ClusterOk(clusters[IndexOf(clusters, IdOf, name)]);
    forall d | d in available
      ensures Matches(d, ip) <==> d.id == GetDestinationKey(ip)
    {
      OnlyOwnMatches(d.id, dests[d.id], d, ip);
    }
    FirstMatchMatches(available, ip, available[0]);
    assert own.id != "d1" by {
      assert own.id[0] == 'i';
    }
  }

  /** Addresses that contain a dash can share a key, and then one client gets the other's destination. */
  lemma DashedAddressesCollide()
    ensures GetDestinationKey("10.0-1") == GetDestinationKey("10.0.1")
    ensures Registered([Ensure("c", "10.0-1", "http://a"), Ensure("c", "10.0.1", "http://b")], "c", "10.0-1") == Some("http://a")
    ensures DestinationsOf(ApplyAll([Ensure("c", "10.0-1", "http://a"), Ensure("c", "10.0.1", "http://b")]), "c")
            == map[GetDestinationKey("10.0-1") := Destination("http://b", Some("10.0.1"))]
  {
    var e1, e2 := Ensure("c", "10.0-1", "http://a"), Ensure("c", "10.0.1", "http://b");
    assert Replaced("10.0-1", '.', '-') == Replaced("10.0.1", '.', '-');
    assert [e1, e2][..1] == [e1] && [e1][..0] == [];
    assert Registered([], "c", "10.0-1") == None;
    assert Registered([e1], "c", "10.0-1") == Some("http://a");
    assert ApplyAll([]) == [];
    assert ApplyAll([e1]) == EnsureIp([], "c", "10.0-1", "http://a");
    assert IndexOf([], IdOf, "c") == 0;
    var c1 := Cluster("c", map[GetDestinationKey("10.0-1") := Destination("http://a", Some("10.0-1"))], Some(IP_BASED), None, None);
    assert ApplyAll([e1]) == [c1];
    assert IndexOf([c1], IdOf, "c") == 0;
  }
}
