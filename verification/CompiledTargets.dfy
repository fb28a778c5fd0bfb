/**
  What a compilation yields, field by field: the bindings a snapshot takes from the table,
  a target's bindings in order, the chain of compilations that makes its result, its plan.
 */
module CompiledTargets {
  import opened Wrappers
  import opened KeyedList
  import opened StableSort
  import opened SnapshotCompiler

  // ----- ordinal order -----

  /** A proper prefix, or smaller at the first character that differs. */
  ghost predicate OrdinallyBefore(a: string, b: string) {
    exists k: nat :: DiffersAt(a, b, k)
  }

  predicate DiffersAt(a: string, b: string, k: nat) {
    && k <= |a| && k < |b| && a[..k] == b[..k]
    && (k < |a| ==> a[k] < b[k])
  }

  lemma DiffersLater(a: string, b: string, k: nat)
    requires a != "" && b != "" && a[0] == b[0]
    ensures DiffersAt(a, b, k + 1) <==> DiffersAt(a[1..], b[1..], k)
  {
    if k + 1 <= |a| && k + 1 <= |b| {
      assert a[..k + 1] == [a[0]] + a[1..][..k];
      assert b[..k + 1] == [b[0]] + b[1..][..k];
      assert a[..k + 1][1..] == a[1..][..k] && b[..k + 1][1..] == b[1..][..k];
    }
  }

  lemma SameStart(a: string, b: string)
    requires a != "" && b != "" && a[0] == b[0]
    ensures OrdinallyBefore(a, b) <==> OrdinallyBefore(a[1..], b[1..])
    ensures a == b <==> a[1..] == b[1..]
  {
    assert a == [a[0]] + a[1..] && b == [b[0]] + b[1..];
    if OrdinallyBefore(a, b) {
      var k: nat :| DiffersAt(a, b, k);
      DiffersLater(a, b, k - 1);
    }
    if OrdinallyBefore(a[1..], b[1..]) {
      var k: nat :| DiffersAt(a[1..], b[1..], k);
      DiffersLater(a, b, k);
    }
  }

  lemma OtherStart(a: string, b: string)
    requires a != "" && b != "" && a[0] != b[0]
    ensures OrdinallyBefore(a, b) <==> a[0] < b[0]
  {
    assert a[0] < b[0] ==> DiffersAt(a, b, 0);
    assert forall k: nat :: DiffersAt(a, b, k) && k > 0 ==> a[..k][0] == b[..k][0];
  }

  lemma {:induction false} StringLeIff(a: string, b: string)
    ensures StringLe(a, b) <==> a == b || OrdinallyBefore(a, b)
  {
    if a == "" {
      assert b != "" ==> DiffersAt(a, b, 0);
    } else if b != "" {
      if a[0] == b[0] {
        StringLeIff(a[1..], b[1..]);
        SameStart(a, b);
      } else {
        OtherStart(a, b);
      }
    }
  }

  // ----- the bindings of a snapshot -----

  /** The id the tables give for the recorded uid of the target, or else the recorded id. */
  ghost predicate StandsFor(x: BindingEntity, s: Surroundings, id: Id) {
    match x.scope
    case RouteScope =>
      if x.routeUid.Some? && x.routeUid.value in s.routeUids then id == s.routeUids[x.routeUid.value] else id == x.scopeId
    case ClusterScope =>
      if x.clusterUid.Some? && x.clusterUid.value in s.clusterUids then id == s.clusterUids[x.clusterUid.value] else id == x.scopeId
  }

  /** An enabled binding of an active plugin to one of the given routes or clusters. */
  ghost predicate Counts(x: BindingEntity, s: Surroundings) {
    && x.enabled && s.active(x.pluginId)
    && exists id :: StandsFor(x, s, id) && id in if x.scope == RouteScope then s.routeIds else s.clusterIds
  }

  ghost predicate TakenFrom(b: Binding, x: BindingEntity, s: Surroundings) {
    && b.bindingId == x.id && b.pluginId == x.pluginId && b.scope == x.scope && b.config == x.config && b.order == x.order
    && StandsFor(x, s, b.scopeId)
  }

  lemma SelectOneIs(x: BindingEntity, s: Surroundings)
    ensures if Counts(x, s) then |Select([x], s)| == 1 && TakenFrom(Select([x], s)[0], x, s) else Select([x], s) == []
  {
    SelectOne(x, s);
    assert forall id :: StandsFor(x, s, id) <==> id == ScopeIdOf(x, s);
    assert StandsFor(x, s, ScopeIdOf(x, s));
  }

  /**
    A snapshot takes exactly the entities that count, each once and in the order of the
    table: `at` says where each binding comes from.
   */
  lemma {:induction false} SelectedAre(table: seq<BindingEntity>, s: Surroundings) returns (at: seq<nat>)
    ensures |at| == |Select(table, s)|
    ensures forall k :: 0 <= k < |at| ==> at[k] < |table| && Counts(table[at[k]], s) && TakenFrom(Select(table, s)[k], table[at[k]], s)
    ensures forall k, l :: 0 <= k < l < |at| ==> at[k] < at[l]
    ensures forall i :: 0 <= i < |table| && Counts(table[i], s) ==> i in at
    decreases |table|
  {
    at := [];
    if table != [] {
      var n := |table| - 1;
      assert table == table[..n] + [table[n]];
      at := SelectedAre(table[..n], s);
      SelectConcat(table[..n], [table[n]], s);
      SelectOneIs(table[n], s);
      if Counts(table[n], s) {
        at := at + [n];
        assert at[|at| - 1] == n;
      }
    }
  }

  /** A binding is in the snapshot exactly when it is taken from an entity that counts. */
  lemma SelectedIff(table: seq<BindingEntity>, s: Surroundings, b: Binding)
    ensures b in Select(table, s) <==> exists x :: x in table && Counts(x, s) && TakenFrom(b, x, s)
  {
    var at := SelectedAre(table, s);
    if x :| x in table && Counts(x, s) && TakenFrom(b, x, s) {
      var i :| 0 <= i < |table| && table[i] == x;
      var k :| 0 <= k < |at| && at[k] == i;
      assert Select(table, s)[k] == b;
    }
  }

  // ----- the bindings of a target, in order -----

  ghost predicate IsGroup(group: seq<Binding>, bindings: seq<Binding>, scope: Scope, id: Id) {
    && (forall b :: multiset(group)[b] == if b.scope == scope && b.scopeId == id then multiset(bindings)[b] else 0)
    && (forall i, j :: 0 <= i < j < |group| ==>
          || group[i].order < group[j].order
          || (group[i].order == group[j].order
              && (group[i].pluginId == group[j].pluginId || OrdinallyBefore(group[i].pluginId, group[j].pluginId))))
  }

  /** Those of one order and plugin. */
  function Ranked(order: int, pluginId: string): Binding -> bool {
    (b: Binding) => b.order == order && b.pluginId == pluginId
  }

  lemma GroupMembers(bindings: seq<Binding>, scope: Scope, id: Id, b: Binding)
    ensures multiset(Group(bindings, scope, id))[b] == if b.scope == scope && b.scopeId == id then multiset(bindings)[b] else 0
  {
    BindingLeIsOrder();
    SortIs(Filter(bindings, For(scope, id)), BindingLe);
    FilterCounts(bindings, For(scope, id), b);
  }

  lemma GroupOrdered(bindings: seq<Binding>, scope: Scope, id: Id)
    ensures
      var group := Group(bindings, scope, id);
      forall i, j :: 0 <= i < j < |group| ==>
        || group[i].order < group[j].order
        || (group[i].order == group[j].order
            && (group[i].pluginId == group[j].pluginId || OrdinallyBefore(group[i].pluginId, group[j].pluginId)))
  {
    var group := Group(bindings, scope, id);
    BindingLeIsOrder();
    SortIs(Filter(bindings, For(scope, id)), BindingLe);
    forall i, j | 0 <= i < j < |group|
      ensures BindingLe(group[i], group[j])
      ensures StringLe(group[i].pluginId, group[j].pluginId) <==>
              group[i].pluginId == group[j].pluginId || OrdinallyBefore(group[i].pluginId, group[j].pluginId)
    {
      StringLeIff(group[i].pluginId, group[j].pluginId);
    }
  }

  /** A group is the target's bindings by order and then plugin, and those of one order and plugin as they were. */
  lemma GroupIs(bindings: seq<Binding>, scope: Scope, id: Id, order: int, pluginId: string)
    ensures IsGroup(Group(bindings, scope, id), bindings, scope, id)
    ensures Filter(Group(bindings, scope, id), Ranked(order, pluginId)) ==
            Filter(bindings, (b: Binding) => b.scope == scope && b.scopeId == id && b.order == order && b.pluginId == pluginId)
  {
    forall b: Binding
      ensures multiset(Group(bindings, scope, id))[b] == if b.scope == scope && b.scopeId == id then multiset(bindings)[b] else 0
    {
      GroupMembers(bindings, scope, id, b);
    }
    GroupOrdered(bindings, scope, id);
    GroupStable(bindings, scope, id, order, pluginId);
  }

  lemma GroupStable(bindings: seq<Binding>, scope: Scope, id: Id, order: int, pluginId: string)
    ensures Filter(Group(bindings, scope, id), Ranked(order, pluginId)) ==
            Filter(bindings, (b: Binding) => b.scope == scope && b.scopeId == id && b.order == order && b.pluginId == pluginId)
  {
    RankedStable(Filter(bindings, For(scope, id)), order, pluginId);
    FilterTwice(bindings, For(scope, id), Ranked(order, pluginId),
                (b: Binding) => b.scope == scope && b.scopeId == id && b.order == order && b.pluginId == pluginId);
  }

  lemma RankedStable(own: seq<Binding>, order: int, pluginId: string)
    ensures Filter(Sort(own, BindingLe), Ranked(order, pluginId)) == Filter(own, Ranked(order, pluginId))
  {
    var z := Binding("", pluginId, RouteScope, "", "", order);
    BindingLeIsOrder();
    SortStable(own, BindingLe, z);
    forall b: Binding
      ensures Beside(z, BindingLe)(b) == Ranked(order, pluginId)(b)
    {
      StringLeTotal(z.pluginId, b.pluginId);
    }
    FilterSame(own, Beside(z, BindingLe), Ranked(order, pluginId));
    FilterSame(Sort(own, BindingLe), Beside(z, BindingLe), Ranked(order, pluginId));
  }

  // ----- the chain of compilations -----

  predicate Earlier(a: (nat, nat), b: (nat, nat)) {
    a.0 < b.0 || (a.0 == b.0 && a.1 < b.1)
  }

  /** What the k-th compilation starts from. */
  function Before<C>(target: C, plugins: seq<Compiled<C>>, k: nat): C
    requires k <= |plugins|
  {
    if k == 0 then target else plugins[k - 1].target
  }

  /** Every compilation is that of its pair, on what the one before it made. */
  ghost predicate Compiles<C(!new)>(target: C, group: seq<Binding>, compilers: seq<Compiler<C>>, at: seq<(nat, nat)>,
                                    plugins: seq<Compiled<C>>)
  {
    && |at| == |plugins|
    && (forall k :: 0 <= k < |at| ==>
          && at[k].0 < |group| && at[k].1 < |compilers| && compilers[at[k].1].canCompile(group[at[k].0].pluginId)
          && plugins[k] == compilers[at[k].1].compile(group[at[k].0], Before(target, plugins, k)))
  }

  /** The pairs of a binding and a compiler that handles it, before a given pair, in sequence. */
  ghost predicate Covers<C(!new)>(group: seq<Binding>, compilers: seq<Compiler<C>>, at: seq<(nat, nat)>, n: nat, m: nat) {
    && (forall k, l :: 0 <= k < l < |at| ==> Earlier(at[k], at[l]))
    && (forall k :: 0 <= k < |at| ==> Earlier(at[k], (n, m)))
    && (forall i: nat, j: nat :: i < |group| && j < |compilers| && Earlier((i, j), (n, m)) && compilers[j].canCompile(group[i].pluginId)
          ==> (i, j) in at)
  }

  /** One compilation for each pair of a binding and a compiler that handles it, and what they make of the target. */
  ghost predicate Chain<C(!new)>(target: C, group: seq<Binding>, compilers: seq<Compiler<C>>, at: seq<(nat, nat)>,
                                 plugins: seq<Compiled<C>>, result: C)
  {
    && Compiles(target, group, compilers, at, plugins) && Covers(group, compilers, at, |group|, 0)
    && result == Before(target, plugins, |plugins|)
  }

  lemma OneMore<C(!new)>(target: C, group: seq<Binding>, compilers: seq<Compiler<C>>, n: nat, m: nat, at: seq<(nat, nat)>,
                         plugins: seq<Compiled<C>>)
    requires n < |group| && m < |compilers| && Compiles(target, group, compilers, at, plugins)
    requires compilers[m].canCompile(group[n].pluginId)
    ensures Compiles(target, group, compilers, at + [(n, m)], plugins + [compilers[m].compile(group[n], Before(target, plugins, |plugins|))])
  {
    var plugins' := plugins + [compilers[m].compile(group[n], Before(target, plugins, |plugins|))];
    forall k | 0 <= k <= |at|
      ensures Before(target, plugins', k) == Before(target, plugins, k)
    {
      assert k > 0 ==> plugins'[k - 1] == plugins[k - 1];
    }
  }

  lemma CoversOneMore<C(!new)>(group: seq<Binding>, compilers: seq<Compiler<C>>, at: seq<(nat, nat)>, n: nat, m: nat)
    requires n < |group| && m < |compilers| && Covers(group, compilers, at, n, m)
    ensures Covers(group, compilers, if compilers[m].canCompile(group[n].pluginId) then at + [(n, m)] else at, n, m + 1)
  {
    var at' := if compilers[m].canCompile(group[n].pluginId) then at + [(n, m)] else at;
    assert compilers[m].canCompile(group[n].pluginId) ==> at'[|at|] == (n, m);
    forall i: nat, j: nat | i < |group| && j < |compilers| && Earlier((i, j), (n, m + 1)) && compilers[j].canCompile(group[i].pluginId)
      ensures (i, j) in at'
    {
      assert Earlier((i, j), (n, m)) || (i, j) == (n, m);
    }
  }

  lemma ChainStep<C(!new)>(target: C, group: seq<Binding>, compilers: seq<Compiler<C>>, n: nat, m: nat, at: seq<(nat, nat)>,
                           current: C, plugins: seq<Compiled<C>>) returns (at': seq<(nat, nat)>)
    requires n < |group| && m < |compilers| && Compiles(target, group, compilers, at, plugins) && Covers(group, compilers, at, n, m)
    requires current == Before(target, plugins, |plugins|)
    ensures Covers(group, compilers, at', n, m + 1)
    ensures
      var compiled := compilers[m].compile(group[n], current);
      var (current', plugins') := if compilers[m].canCompile(group[n].pluginId) then (compiled.target, plugins + [compiled]) else (current, plugins);
      Compiles(target, group, compilers, at', plugins') && current' == Before(target, plugins', |plugins'|)
  {
    at' := if compilers[m].canCompile(group[n].pluginId) then at + [(n, m)] else at;
    CoversOneMore(group, compilers, at, n, m);
    if compilers[m].canCompile(group[n].pluginId) {
      OneMore(target, group, compilers, n, m, at, plugins);
    }
  }

  lemma {:induction false} BindingChain<C(!new)>(target: C, group: seq<Binding>, compilers: seq<Compiler<C>>, n: nat, m: nat,
                                                 at: seq<(nat, nat)>, state: (C, seq<Compiled<C>>)) returns (at': seq<(nat, nat)>)
    requires n < |group| && m <= |compilers| && Compiles(target, group, compilers, at, state.1) && Covers(group, compilers, at, n, 0)
    requires state.0 == Before(target, state.1, |state.1|)
    ensures
      var (result, plugins) := CompileBinding(state, group[n], compilers[..m]);
      && Compiles(target, group, compilers, at', plugins) && Covers(group, compilers, at', n, m)
      && result == Before(target, plugins, |plugins|)
    decreases m
  {
    at' := at;
    if m > 0 {
      at' := BindingChain(target, group, compilers, n, m - 1, at, state);
      var (current, plugins) := CompileBinding(state, group[n], compilers[..m - 1]);
      at' := ChainStep(target, group, compilers, n, m - 1, at', current, plugins);
      NextCompiler(state, group[n], compilers, m - 1);
    }
  }

  lemma NextCompiler<C>(state: (C, seq<Compiled<C>>), b: Binding, compilers: seq<Compiler<C>>, m: nat)
    requires m < |compilers|
    ensures
      var (current, plugins) := CompileBinding(state, b, compilers[..m]);
      CompileBinding(state, b, compilers[..m + 1]) ==
      if compilers[m].canCompile(b.pluginId)
      then (compilers[m].compile(b, current).target, plugins + [compilers[m].compile(b, current)])
      else (current, plugins)
  {
    assert compilers[..m + 1][..m] == compilers[..m];
  }

  lemma NextBinding<C(!new)>(group: seq<Binding>, compilers: seq<Compiler<C>>, at: seq<(nat, nat)>, n: nat)
    requires Covers(group, compilers, at, n, |compilers|)
    ensures Covers(group, compilers, at, n + 1, 0)
  {
    forall i: nat, j: nat | i < |group| && j < |compilers| && Earlier((i, j), (n + 1, 0)) && compilers[j].canCompile(group[i].pluginId)
      ensures (i, j) in at
    {
      assert Earlier((i, j), (n, |compilers|));
    }
  }

  lemma {:induction false} TargetChain<C(!new)>(target: C, group: seq<Binding>, compilers: seq<Compiler<C>>, n: nat)
    returns (at: seq<(nat, nat)>)
    requires n <= |group|
    ensures
      var (result, plugins) := CompileTarget(target, group[..n], compilers);
      && Compiles(target, group, compilers, at, plugins) && Covers(group, compilers, at, n, 0)
      && result == Before(target, plugins, |plugins|)
    decreases n
  {
    at := [];
    if n > 0 {
      at := TargetChain(target, group, compilers, n - 1);
      assert group[..n][..n - 1] == group[..n - 1] && compilers[..|compilers|] == compilers;
      at := BindingChain(target, group, compilers, n - 1, |compilers|, at, CompileTarget(target, group[..n - 1], compilers));
      NextBinding(group, compilers, at, n - 1);
    }
  }

  // ----- plans -----

  /** By stage, then order, then plugin, then binding. */
  ghost predicate InPlanOrder<C>(plan: seq<Compiled<C>>) {
    forall i, j :: 0 <= i < j < |plan| ==>
      var (a, b, x, y) := (plan[i], plan[j], plan[i].binding, plan[j].binding);
      || a.stage < b.stage
      || (a.stage == b.stage && x.order < y.order)
      || (a.stage == b.stage && x.order == y.order && OrdinallyBefore(x.pluginId, y.pluginId))
      || (a.stage == b.stage && x.order == y.order && x.pluginId == y.pluginId
          && (x.bindingId == y.bindingId || OrdinallyBefore(x.bindingId, y.bindingId)))
  }

  function Placed<C>(stage: int, order: int, pluginId: string, bindingId: string): Compiled<C> -> bool {
    (a: Compiled<C>) => a.stage == stage && a.binding.order == order && a.binding.pluginId == pluginId && a.binding.bindingId == bindingId
  }

  /** A permutation of what was compiled, in plan order, and equals in the order they were compiled. */
  ghost predicate IsPlan<C(!new)>(plan: seq<Compiled<C>>, plugins: seq<Compiled<C>>) {
    && multiset(plan) == multiset(plugins) && InPlanOrder(plan)
    && (forall stage, order, pluginId, bindingId ::
          Filter(plan, Placed<C>(stage, order, pluginId, bindingId)) == Filter(plugins, Placed<C>(stage, order, pluginId, bindingId)))
  }

  lemma BesideInPlan<C(!new)>(z: Compiled<C>, a: Compiled<C>)
    ensures Beside(z, PlanLe<C>)(a) <==> Placed<C>(z.stage, z.binding.order, z.binding.pluginId, z.binding.bindingId)(a)
  {
    assert Beside(z, PlanLe<C>)(a) <==> PlanLe(z, a) && PlanLe(a, z);
    StringLeTotal(z.binding.pluginId, a.binding.pluginId);
    StringLeTotal(z.binding.bindingId, a.binding.bindingId);
  }

  lemma PlanStable<C(!new)>(plugins: seq<Compiled<C>>, stage: int, order: int, pluginId: string, bindingId: string)
    ensures Filter(Sort(plugins, PlanLe<C>), Placed<C>(stage, order, pluginId, bindingId)) ==
            Filter(plugins, Placed<C>(stage, order, pluginId, bindingId))
  {
    var here, plan := Placed<C>(stage, order, pluginId, bindingId), Sort(plugins, PlanLe<C>);
    PlanLeIsOrder<C>();
    SortIs(plugins, PlanLe<C>);
    SameMembers(plan, plugins);
    if z :| z in plugins && here(z) {
      SortStable(plugins, PlanLe<C>, z);
      forall a: Compiled<C>
        ensures Beside(z, PlanLe<C>)(a) == here(a)
      {
        BesideInPlan(z, a);
      }
      FilterSame(plugins, Beside(z, PlanLe<C>), here);
      FilterSame(plan, Beside(z, PlanLe<C>), here);
    } else {
      FilterNone(plugins, here);
      FilterNone(plan, here);
    }
  }

  lemma SortedPlan<C(!new)>(plugins: seq<Compiled<C>>)
    ensures IsPlan(Sort(plugins, PlanLe<C>), plugins)
  {
    var plan := Sort(plugins, PlanLe<C>);
    PlanLeIsOrder<C>();
    SortIs(plugins, PlanLe<C>);
    forall i, j | 0 <= i < j < |plan|
      ensures PlanLe(plan[i], plan[j])
      ensures StringLe(plan[i].binding.pluginId, plan[j].binding.pluginId) <==>
              plan[i].binding.pluginId == plan[j].binding.pluginId || OrdinallyBefore(plan[i].binding.pluginId, plan[j].binding.pluginId)
      ensures StringLe(plan[i].binding.bindingId, plan[j].binding.bindingId) <==>
              plan[i].binding.bindingId == plan[j].binding.bindingId || OrdinallyBefore(plan[i].binding.bindingId, plan[j].binding.bindingId)
    {
      StringLeIff(plan[i].binding.pluginId, plan[j].binding.pluginId);
      StringLeIff(plan[i].binding.bindingId, plan[j].binding.bindingId);
    }
    forall stage, order, pluginId, bindingId
      ensures Filter(plan, Placed<C>(stage, order, pluginId, bindingId)) == Filter(plugins, Placed<C>(stage, order, pluginId, bindingId))
    {
      PlanStable(plugins, stage, order, pluginId, bindingId);
    }
  }

  // ----- all targets -----

  /**
    Each target is compiled through its own bindings in order, one compilation for each
    pair of a binding and a compiler that handles it, in sequence and each on what the one
    before it made; its plan is what came out, in plan order.
   */
  lemma CompiledIs<C(!new)>(targets: seq<C>, idOf: C -> Id, bindings: seq<Binding>, scope: Scope, compilers: seq<Compiler<C>>, k: nat)
    returns (group: seq<Binding>, at: seq<(nat, nat)>, plugins: seq<Compiled<C>>)
    requires k < |targets|
    ensures
      var (compiled, plans) := CompileTargets(targets, idOf, bindings, scope, compilers);
      && |compiled| == |targets| && idOf(targets[k]) in plans
      && IsGroup(group, bindings, scope, idOf(targets[k])) && Chain(targets[k], group, compilers, at, plugins, compiled[k])
      && ((forall j :: k < j < |targets| ==> idOf(targets[j]) != idOf(targets[k])) ==> IsPlan(plans[idOf(targets[k])], plugins))
  {
    var id := idOf(targets[k]);
    group := Group(bindings, scope, id);
    GroupIs(bindings, scope, id, 0, "");
    assert group[..|group|] == group;
    at := TargetChain(targets[k], group, compilers, |group|);
    plugins := CompileTarget(targets[k], group, compilers).1;
    SortedPlan(plugins);
    CompiledAt(targets, idOf, bindings, scope, compilers, k);
    PlansFor(targets, idOf, bindings, scope, compilers, id);
    if forall j :: k < j < |targets| ==> idOf(targets[j]) != id {
      PlanOf(targets, idOf, bindings, scope, compilers, k);
    }
  }

  lemma {:induction false} CompiledAt<C>(targets: seq<C>, idOf: C -> Id, bindings: seq<Binding>, scope: Scope,
                                         compilers: seq<Compiler<C>>, k: nat)
    requires k < |targets|
    ensures
      var compiled := CompileTargets(targets, idOf, bindings, scope, compilers).0;
      |compiled| == |targets| && compiled[k] == CompileTarget(targets[k], Group(bindings, scope, idOf(targets[k])), compilers).0
    decreases |targets|
  {
    var n := |targets| - 1;
    CompiledCount(targets[..n], idOf, bindings, scope, compilers);
    if k < n {
      CompiledAt(targets[..n], idOf, bindings, scope, compilers, k);
    }
  }

  lemma {:induction false} PlansFor<C>(targets: seq<C>, idOf: C -> Id, bindings: seq<Binding>, scope: Scope,
                                       compilers: seq<Compiler<C>>, id: Id)
    ensures id in CompileTargets(targets, idOf, bindings, scope, compilers).1 <==> exists t :: t in targets && idOf(t) == id
    decreases |targets|
  {
    if targets != [] {
      var init, last := targets[..|targets| - 1], targets[|targets| - 1];
      PlansFor(init, idOf, bindings, scope, compilers, id);
      assert targets == init + [last];
    }
  }
}
