/**
  Compiling plugin bindings into a snapshot: which bindings count, in which order they are
  compiled into each route and cluster, and the plans that come out. Compilers are
  arbitrary functions; routes and clusters are compiled alike, by different ones.
 */
module SnapshotCompiler {
  import opened Wrappers
  import opened KeyedList
  import opened StableSort

  type Uid = nat

  datatype Scope = RouteScope | ClusterScope

  datatype BindingEntity = BindingEntity(
    id: string, pluginId: string, scope: Scope, scopeId: Id, routeUid: Option<Uid>, clusterUid: Option<Uid>,
    config: string, order: int, enabled: bool)

  datatype Binding = Binding(bindingId: string, pluginId: string, scope: Scope, scopeId: Id, config: string, order: int)

  /** What a compiler makes of a binding and a target; `stage` is the number of the execution stage. */
  datatype Compiled<C> = Compiled(binding: Binding, stage: int, runtime: string, target: C)

  datatype Compiler<!C> = Compiler(order: int, canCompile: string -> bool, compile: (Binding, C) -> Compiled<C>)

  /** What a compilation reads besides the binding table. */
  datatype Surroundings = Surroundings(
    routeIds: set<Id>, clusterIds: set<Id>, routeUids: map<Uid, Id>, clusterUids: map<Uid, Id>, active: string -> bool)

  // ----- orders -----

  /** Ordinal comparison. */
  predicate StringLe(a: string, b: string) {
    a == "" || (b != "" && (a[0] < b[0] || (a[0] == b[0] && StringLe(a[1..], b[1..]))))
  }

  lemma {:induction false} StringLeTotal(a: string, b: string)
    ensures StringLe(a, b) || StringLe(b, a)
    ensures StringLe(a, b) && StringLe(b, a) ==> a == b
  {
    if a != "" && b != "" {
      StringLeTotal(a[1..], b[1..]);
      assert a == [a[0]] + a[1..] && b == [b[0]] + b[1..];
    }
  }

  lemma {:induction false} StringLeTransitive(a: string, b: string, c: string)
    requires StringLe(a, b) && StringLe(b, c)
    ensures StringLe(a, c)
  {
    if a != "" && a[0] == b[0] == c[0] {
      StringLeTransitive(a[1..], b[1..], c[1..]);
    }
  }

  /** Bindings of one target: by order, then by plugin. */
  predicate BindingLe(a: Binding, b: Binding) {
    a.order < b.order || (a.order == b.order && StringLe(a.pluginId, b.pluginId))
  }

  /** Plugins of one plan: by stage, then by order, plugin and binding. */
  predicate PlanLe<C>(a: Compiled<C>, b: Compiled<C>) {
    var x, y := a.binding, b.binding;
    if a.stage != b.stage then a.stage < b.stage
    else if x.order != y.order then x.order < y.order
    else if x.pluginId != y.pluginId then StringLe(x.pluginId, y.pluginId)
    else StringLe(x.bindingId, y.bindingId)
  }

  predicate CompilerLe<C>(a: Compiler<C>, b: Compiler<C>) {
    a.order <= b.order
  }

  lemma BindingLeIsOrder()
    ensures TotalPreorder(BindingLe)
  {
    forall a: Binding, b: Binding
      ensures BindingLe(a, b) || BindingLe(b, a)
    {
      StringLeTotal(a.pluginId, b.pluginId);
    }
    forall a: Binding, b: Binding, c: Binding | BindingLe(a, b) && BindingLe(b, c)
      ensures BindingLe(a, c)
    {
      if a.order == b.order == c.order {
        StringLeTransitive(a.pluginId, b.pluginId, c.pluginId);
      }
    }
  }

  lemma PlanLeTransitive<C>(a: Compiled<C>, b: Compiled<C>, c: Compiled<C>)
    requires PlanLe(a, b) && PlanLe(b, c)
    ensures PlanLe(a, c)
  {
    if a.stage == b.stage == c.stage && a.binding.order == b.binding.order == c.binding.order {
      StringLeTotal(a.binding.pluginId, b.binding.pluginId);
      StringLeTotal(b.binding.pluginId, c.binding.pluginId);
      StringLeTotal(a.binding.pluginId, c.binding.pluginId);
      if StringLe(a.binding.pluginId, b.binding.pluginId) && StringLe(b.binding.pluginId, c.binding.pluginId) {
        StringLeTransitive(a.binding.pluginId, b.binding.pluginId, c.binding.pluginId);
      }
      if a.binding.pluginId == b.binding.pluginId == c.binding.pluginId {
        StringLeTransitive(a.binding.bindingId, b.binding.bindingId, c.binding.bindingId);
      }
    }
  }

  lemma PlanLeIsOrder<C(!new)>()
    ensures TotalPreorder(PlanLe<C>)
  {
    forall a: Compiled<C>, b: Compiled<C>
      ensures PlanLe(a, b) || PlanLe(b, a)
    {
      StringLeTotal(a.binding.pluginId, b.binding.pluginId);
      StringLeTotal(a.binding.bindingId, b.binding.bindingId);
    }
    forall a: Compiled<C>, b: Compiled<C>, c: Compiled<C> | PlanLe(a, b) && PlanLe(b, c)
      ensures PlanLe(a, c)
    {
      PlanLeTransitive(a, b, c);
    }
  }

  // ----- which bindings count -----

  /** A binding follows its target's uid to the id the target has in the store now. */
  function ScopeIdOf(b: BindingEntity, s: Surroundings): Id {
    if b.scope == RouteScope && b.routeUid.Some? && b.routeUid.value in s.routeUids then s.routeUids[b.routeUid.value]
    else if b.scope == ClusterScope && b.clusterUid.Some? && b.clusterUid.value in s.clusterUids then s.clusterUids[b.clusterUid.value]
    else b.scopeId
  }

  function ToSnapshot(b: BindingEntity, s: Surroundings): Binding {
    Binding(b.id, b.pluginId, b.scope, ScopeIdOf(b, s), b.config, b.order)
  }

  predicate HasTarget(b: Binding, s: Surroundings) {
    if b.scope == RouteScope then b.scopeId in s.routeIds else b.scopeId in s.clusterIds
  }

  function Snapshots(table: seq<BindingEntity>, s: Surroundings): seq<Binding> {
    seq(|table|, i requires 0 <= i < |table| => ToSnapshot(table[i], s))
  }

  /** Enabled bindings of active plugins whose target is among the given ones. */
  function Select(table: seq<BindingEntity>, s: Surroundings): seq<Binding> {
    var live := Filter(table, (b: BindingEntity) => b.enabled && s.active(b.pluginId));
    Filter(Snapshots(live, s), b => HasTarget(b, s))
  }

  function For(scope: Scope, id: Id): Binding -> bool {
    (b: Binding) => b.scope == scope && b.scopeId == id
  }

  function Group(bindings: seq<Binding>, scope: Scope, id: Id): seq<Binding> {
    Sort(Filter(bindings, For(scope, id)), BindingLe)
  }

  // ----- compiling -----

  function BuildCompilerPipeline<C>(compilers: seq<Compiler<C>>): seq<Compiler<C>> {
    Sort(compilers, CompilerLe<C>)
  }

  /** One binding through the compilers that handle it, each on what the one before it made. */
  function CompileBinding<C>(state: (C, seq<Compiled<C>>), b: Binding, compilers: seq<Compiler<C>>): (C, seq<Compiled<C>>)
    decreases |compilers|
  {
    if compilers == [] then state
    else
      var n := |compilers| - 1;
      var (current, plugins) := CompileBinding(state, b, compilers[..n]);
      if compilers[n].canCompile(b.pluginId) then
        var compiled := compilers[n].compile(b, current);
        (compiled.target, plugins + [compiled])
      else (current, plugins)
  }

  function CompileTarget<C>(target: C, bindings: seq<Binding>, compilers: seq<Compiler<C>>): (C, seq<Compiled<C>>)
    decreases |bindings|
  {
    if bindings == [] then (target, [])
    else
      var n := |bindings| - 1;
      CompileBinding(CompileTarget(target, bindings[..n], compilers), bindings[n], compilers)
  }

  function CompileTargets<C>(targets: seq<C>, idOf: C -> Id, bindings: seq<Binding>, scope: Scope, compilers: seq<Compiler<C>>)
    : (seq<C>, map<Id, seq<Compiled<C>>>)
    decreases |targets|
  {
    if targets == [] then ([], map[])
    else
      var n := |targets| - 1;
      var (done, plans) := CompileTargets(targets[..n], idOf, bindings, scope, compilers);
      var id := idOf(targets[n]);
      var (compiled, plugins) := CompileTarget(targets[n], Group(bindings, scope, id), compilers);
      (done + [compiled], plans[id := Sort(plugins, PlanLe<C>)])
  }

  /** The loops over targets, their bindings and the compilers. */
  method CompileAll<C>(targets: seq<C>, idOf: C -> Id, bindings: seq<Binding>, scope: Scope, compilers: seq<Compiler<C>>)
    returns (compiledTargets: seq<C>, plans: map<Id, seq<Compiled<C>>>)
    ensures (compiledTargets, plans) == CompileTargets(targets, idOf, bindings, scope, compilers)
  {
    compiledTargets, plans := [], map[];
    var i := 0;
    while i < |targets|
      invariant i <= |targets| && (compiledTargets, plans) == CompileTargets(targets[..i], idOf, bindings, scope, compilers)
    {
      assert targets[..i + 1][..i] == targets[..i];
      var id := idOf(targets[i]);
      var current, plugins := CompileOne(targets[i], Group(bindings, scope, id), compilers);
      compiledTargets := compiledTargets + [current];
      plans := plans[id := Sort(plugins, PlanLe<C>)];
      i := i + 1;
    }
    assert targets[..i] == targets;
  }

  method CompileOne<C>(target: C, bindings: seq<Binding>, compilers: seq<Compiler<C>>) returns (current: C, plugins: seq<Compiled<C>>)
    ensures (current, plugins) == CompileTarget(target, bindings, compilers)
  {
    current, plugins := target, [];
    var i := 0;
    while i < |bindings|
      invariant i <= |bindings| && (current, plugins) == CompileTarget(target, bindings[..i], compilers)
    {
      assert bindings[..i + 1][..i] == bindings[..i];
      ghost var before := (current, plugins);
      var j := 0;
      while j < |compilers|
        invariant j <= |compilers| && (current, plugins) == CompileBinding(before, bindings[i], compilers[..j])
      {
        assert compilers[..j + 1][..j] == compilers[..j];
        if compilers[j].canCompile(bindings[i].pluginId) {
          var compiled := compilers[j].compile(bindings[i], current);
          current := compiled.target;
          plugins := plugins + [compiled];
        }
        j := j + 1;
      }
      assert compilers[..j] == compilers;
      i := i + 1;
    }
    assert bindings[..i] == bindings;
  }

  // ----- order of the table -----

  lemma {:induction false} FilterCounts<T>(s: seq<T>, p: T -> bool, x: T)
    ensures multiset(Filter(s, p))[x] == if p(x) then multiset(s)[x] else 0
    decreases |s|
  {
    if s != [] {
      var n := |s| - 1;
      FilterCounts(s[..n], p, x);
      assert s == s[..n] + [s[n]];
    }
  }

  lemma FilterAnyOrder<T(!new)>(a: seq<T>, b: seq<T>, p: T -> bool)
    requires multiset(a) == multiset(b)
    ensures multiset(Filter(a, p)) == multiset(Filter(b, p))
  {
    forall x
      ensures multiset(Filter(a, p))[x] == multiset(Filter(b, p))[x]
    {
      FilterCounts(a, p, x);
      FilterCounts(b, p, x);
    }
  }

  lemma SnapshotsConcat(a: seq<BindingEntity>, b: seq<BindingEntity>, s: Surroundings)
    ensures Snapshots(a + b, s) == Snapshots(a, s) + Snapshots(b, s)
  {
  }

  lemma SnapshotsAround(left: seq<BindingEntity>, x: BindingEntity, right: seq<BindingEntity>, s: Surroundings)
    ensures multiset(Snapshots(left + [x] + right, s)) == multiset(Snapshots(left + right, s)) + multiset{ToSnapshot(x, s)}
  {
    SnapshotsConcat(left, right, s);
    SnapshotsConcat(left, [x], s);
    SnapshotsConcat(left + [x], right, s);
    assert Snapshots([x], s) == [ToSnapshot(x, s)];
  }

  lemma DropOne<T>(rest: seq<T>, left: seq<T>, x: T, right: seq<T>)
    requires multiset([x] + rest) == multiset(left + [x] + right)
    ensures multiset(rest) == multiset(left + right)
  {
    assert multiset([x] + rest) - multiset{x} == multiset(rest);
    assert multiset(left + [x] + right) - multiset{x} == multiset(left + right);
  }

  lemma SplitAround<T>(s: seq<T>, x: T) returns (left: seq<T>, right: seq<T>)
    requires x in s
    ensures s == left + [x] + right
  {
    var i :| 0 <= i < |s| && s[i] == x;
    left, right := s[..i], s[i + 1..];
  }

  lemma SnapshotsHead(x: BindingEntity, rest: seq<BindingEntity>, s: Surroundings)
    ensures multiset(Snapshots([x] + rest, s)) == multiset(Snapshots(rest, s)) + multiset{ToSnapshot(x, s)}
  {
    SnapshotsConcat([x], rest, s);
    assert Snapshots([x], s) == [ToSnapshot(x, s)];
  }

  lemma {:induction false} SnapshotsAnyOrder(a: seq<BindingEntity>, b: seq<BindingEntity>, s: Surroundings)
    requires multiset(a) == multiset(b)
    ensures multiset(Snapshots(a, s)) == multiset(Snapshots(b, s))
  {
    if a == [] {
      assert |multiset(b)| == |b|;
    } else {
      var x, rest := a[0], a[1..];
      assert a == [x] + rest;
      assert x in b by {
        assert x in multiset(a);
      }
      var left, right := SplitAround(b, x);
      DropOne(rest, left, x, right);
      SnapshotsAnyOrder(rest, left + right, s);
      SnapshotsHead(x, rest, s);
      SnapshotsAround(left, x, right, s);
    }
  }

  lemma SelectAnyOrder(p: seq<BindingEntity>, q: seq<BindingEntity>, s: Surroundings)
    requires multiset(p) == multiset(q)
    ensures multiset(Select(p, s)) == multiset(Select(q, s))
  {
    var live := (b: BindingEntity) => b.enabled && s.active(b.pluginId);
    FilterAnyOrder(p, q, live);
    SnapshotsAnyOrder(Filter(p, live), Filter(q, live), s);
    FilterAnyOrder(Snapshots(Filter(p, live), s), Snapshots(Filter(q, live), s), b => HasTarget(b, s));
  }

  lemma {:induction false} FilterAll<T>(s: seq<T>, p: T -> bool)
    requires forall x :: x in s ==> p(x)
    ensures Filter(s, p) == s
    decreases |s|
  {
    if s != [] {
      var n := |s| - 1;
      FilterAll(s[..n], p);
      assert s == s[..n] + [s[n]];
    }
  }

  lemma FilterMembers<T>(s: seq<T>, p: T -> bool, x: T)
    ensures x in Filter(s, p) <==> x in s && p(x)
  {
    FilterCounts(s, p, x);
    assert x in Filter(s, p) <==> multiset(Filter(s, p))[x] > 0;
    assert x in s <==> multiset(s)[x] > 0;
  }

  /** Filtering splits a sequence into two. */
  lemma FilterSplits<T(!new)>(s: seq<T>, p: T -> bool, q: T -> bool)
    requires forall x :: q(x) == !p(x)
    ensures multiset(Filter(s, p)) + multiset(Filter(s, q)) == multiset(s)
  {
    forall x
      ensures (multiset(Filter(s, p)) + multiset(Filter(s, q)))[x] == multiset(s)[x]
    {
      FilterCounts(s, p, x);
      FilterCounts(s, q, x);
    }
  }

  lemma FilterLeft<T>(s: seq<T>, p: T -> bool, q: T -> bool)
    requires forall x :: x in s && q(x) ==> !p(x)
    ensures Filter(Filter(s, q), p) == []
  {
    forall x | x in Filter(s, q)
      ensures !p(x)
    {
      FilterMembers(s, q, x);
    }
    FilterNone(Filter(s, q), p);
  }

  lemma FilterOfSame<T>(own: seq<T>, s: seq<T>, p: T -> bool)
    requires multiset(own) == multiset(Filter(s, p))
    ensures Filter(own, p) == own
  {
    SameMembers(own, Filter(s, p));
    forall x | x in own
      ensures p(x)
    {
      FilterMembers(s, p, x);
    }
    FilterAll(own, p);
  }

  /** What is left, then the target's bindings in a given order: a permutation with that group. */
  lemma Rearranged(bindings: seq<Binding>, scope: Scope, id: Id, own: seq<Binding>) returns (p: seq<Binding>)
    requires multiset(own) == multiset(Filter(bindings, For(scope, id)))
    ensures multiset(p) == multiset(bindings) && Filter(p, For(scope, id)) == own
  {
    var mine := For(scope, id);
    var others := (b: Binding) => !mine(b);
    p := Filter(bindings, others) + own;
    FilterSplits(bindings, mine, others);
    FilterConcat(Filter(bindings, others), own, mine);
    FilterLeft(bindings, mine, others);
    FilterOfSame(own, bindings, mine);
  }

  /** No two different bindings of a sequence have the same order and plugin. */
  ghost predicate Distinguished(bindings: seq<Binding>) {
    forall x, y :: x in bindings && y in bindings && x.order == y.order && x.pluginId == y.pluginId ==> x == y
  }

  lemma DistinguishedIff(bindings: seq<Binding>)
    ensures Distinguished(bindings) <==> NoTies(bindings, BindingLe)
  {
    forall x: Binding, y: Binding
      ensures BindingLe(x, y) && BindingLe(y, x) <==> x.order == y.order && x.pluginId == y.pluginId
    {
      StringLeTotal(x.pluginId, y.pluginId);
    }
  }

  lemma GroupAnyOrder(a: seq<Binding>, b: seq<Binding>, scope: Scope, id: Id)
    requires multiset(a) == multiset(b) && NoTies(Filter(a, For(scope, id)), BindingLe)
    ensures Group(a, scope, id) == Group(b, scope, id)
  {
    BindingLeIsOrder();
    FilterAnyOrder(a, b, For(scope, id));
    SortAnyOrder(Filter(a, For(scope, id)), Filter(b, For(scope, id)), BindingLe);
  }

  lemma TiesShow(bindings: seq<Binding>, scope: Scope, id: Id) returns (p: seq<Binding>)
    requires !NoTies(Filter(bindings, For(scope, id)), BindingLe)
    ensures multiset(p) == multiset(bindings) && Group(p, scope, id) != Group(bindings, scope, id)
  {
    var own := Filter(bindings, For(scope, id));
    BindingLeIsOrder();
    OrderIndependentIff(own, BindingLe);
    var f :| multiset(f) == multiset(own) && Sort(f, BindingLe) != Sort(own, BindingLe);
    p := Rearranged(bindings, scope, id, f);
  }

  /** A target's bindings compile in the same order from every order of the table exactly when no two have the same order and plugin. */
  lemma GroupOrderIndependentIff(bindings: seq<Binding>, scope: Scope, id: Id)
    ensures (forall p :: multiset(p) == multiset(bindings) ==> Group(p, scope, id) == Group(bindings, scope, id))
            <==> Distinguished(Filter(bindings, For(scope, id)))
  {
    DistinguishedIff(Filter(bindings, For(scope, id)));
    if NoTies(Filter(bindings, For(scope, id)), BindingLe) {
      forall p | multiset(p) == multiset(bindings)
        ensures Group(p, scope, id) == Group(bindings, scope, id)
      {
        GroupAnyOrder(bindings, p, scope, id);
      }
    } else {
      var p := TiesShow(bindings, scope, id);
    }
  }

  lemma {:induction false} SameGroupsSameResult<C>(targets: seq<C>, idOf: C -> Id, a: seq<Binding>, b: seq<Binding>, scope: Scope,
                                                   compilers: seq<Compiler<C>>)
    requires forall t :: t in targets ==> Group(a, scope, idOf(t)) == Group(b, scope, idOf(t))
    ensures CompileTargets(targets, idOf, a, scope, compilers) == CompileTargets(targets, idOf, b, scope, compilers)
    decreases |targets|
  {
    if targets != [] {
      assert targets[|targets| - 1] in targets;
      SameGroupsSameResult(targets[..|targets| - 1], idOf, a, b, scope, compilers);
    }
  }

  /**
    Permuting the binding table changes no compiled target and no plan when on each target
    the pairs of order and plugin are distinct.
   */
  lemma CompilationOrderIndependent<C>(targets: seq<C>, idOf: C -> Id, p: seq<BindingEntity>, q: seq<BindingEntity>,
                                       s: Surroundings, scope: Scope, compilers: seq<Compiler<C>>)
    requires multiset(p) == multiset(q)
    requires forall t :: t in targets ==> Distinguished(Filter(Select(p, s), For(scope, idOf(t))))
    ensures CompileTargets(targets, idOf, Select(p, s), scope, compilers) == CompileTargets(targets, idOf, Select(q, s), scope, compilers)
  {
    SelectAnyOrder(p, q, s);
    forall t | t in targets
      ensures Group(Select(p, s), scope, idOf(t)) == Group(Select(q, s), scope, idOf(t))
    {
      DistinguishedIff(Filter(Select(p, s), For(scope, idOf(t))));
      GroupAnyOrder(Select(p, s), Select(q, s), scope, idOf(t));
    }
    SameGroupsSameResult(targets, idOf, Select(p, s), Select(q, s), scope, compilers);
  }

  // ----- locality -----

  lemma SelectConcat(a: seq<BindingEntity>, b: seq<BindingEntity>, s: Surroundings)
    ensures Select(a + b, s) == Select(a, s) + Select(b, s)
  {
    var live, known := (b: BindingEntity) => b.enabled && s.active(b.pluginId), (b: Binding) => HasTarget(b, s);
    FilterConcat(a, b, live);
    SnapshotsConcat(Filter(a, live), Filter(b, live), s);
    FilterConcat(Snapshots(Filter(a, live), s), Snapshots(Filter(b, live), s), known);
  }

  /** A binding has no effect on a target unless it is enabled, its plugin active and it resolves to that target. */
  lemma OthersDoNotMatter(a: seq<BindingEntity>, x: BindingEntity, c: seq<BindingEntity>, s: Surroundings, scope: Scope, id: Id)
    requires !(x.enabled && s.active(x.pluginId) && x.scope == scope && ScopeIdOf(x, s) == id)
    ensures Group(Select(a + [x] + c, s), scope, id) == Group(Select(a + c, s), scope, id)
  {
    SelectConcat(a, c, s);
    SelectConcat(a, [x], s);
    SelectConcat(a + [x], c, s);
    assert Filter(Select([x], s), For(scope, id)) == [] by {
      forall b | b in Select([x], s)
        ensures !For(scope, id)(b)
      {
        SelectedFrom(x, s, b);
      }
      FilterNone(Select([x], s), For(scope, id));
    }
    FilterConcat(Select(a, s), Select(c, s), For(scope, id));
    FilterConcat(Select(a, s), Select([x], s), For(scope, id));
    FilterConcat(Select(a, s) + Select([x], s), Select(c, s), For(scope, id));
    assert Filter(Select(a + [x] + c, s), For(scope, id)) == Filter(Select(a + c, s), For(scope, id));
  }

  lemma FilterOne<T>(x: T, p: T -> bool)
    ensures Filter([x], p) == if p(x) then [x] else []
  {
    assert [x][..0] == [];
  }

  lemma SelectOne(b: BindingEntity, s: Surroundings)
    ensures Select([b], s) ==
            if b.enabled && s.active(b.pluginId) && HasTarget(ToSnapshot(b, s), s) then [ToSnapshot(b, s)] else []
  {
    var live, known := (b: BindingEntity) => b.enabled && s.active(b.pluginId), (x: Binding) => HasTarget(x, s);
    FilterOne(b, live);
    if live(b) {
      assert Snapshots([b], s) == [ToSnapshot(b, s)];
      FilterOne(ToSnapshot(b, s), known);
    }
    assert Select([b], s) == Filter(Snapshots(Filter([b], live), s), known);
  }

  lemma SelectedFrom(x: BindingEntity, s: Surroundings, b: Binding)
    ensures b in Select([x], s) <==> x.enabled && s.active(x.pluginId) && b == ToSnapshot(x, s) && HasTarget(b, s)
  {
    SelectOne(x, s);
  }

  // ----- plans -----

  lemma {:induction false} PlanOf<C>(targets: seq<C>, idOf: C -> Id, bindings: seq<Binding>, scope: Scope, compilers: seq<Compiler<C>>, k: nat)
    requires k < |targets| && forall j :: k < j < |targets| ==> idOf(targets[j]) != idOf(targets[k])
    ensures
      var (compiled, plans) := CompileTargets(targets, idOf, bindings, scope, compilers);
      var (target, plugins) := CompileTarget(targets[k], Group(bindings, scope, idOf(targets[k])), compilers);
      && |compiled| == |targets| && compiled[k] == target
      && idOf(targets[k]) in plans && plans[idOf(targets[k])] == Sort(plugins, PlanLe<C>)
    decreases |targets|
  {
    var n := |targets| - 1;
    CompiledCount(targets[..n], idOf, bindings, scope, compilers);
    if k < n {
      PlanOf(targets[..n], idOf, bindings, scope, compilers, k);
    }
  }

  lemma {:induction false} CompiledCount<C>(targets: seq<C>, idOf: C -> Id, bindings: seq<Binding>, scope: Scope, compilers: seq<Compiler<C>>)
    ensures |CompileTargets(targets, idOf, bindings, scope, compilers).0| == |targets|
    decreases |targets|
  {
    if targets != [] {
      CompiledCount(targets[..|targets| - 1], idOf, bindings, scope, compilers);
    }
  }

  lemma CompilerLeIsOrder<C(!new)>()
    ensures TotalPreorder(CompilerLe<C>)
  {
  }

  /** The compiler pipeline is a permutation of the compilers that runs by order, and those of one order as they were registered. */
  lemma PipelineIs<C(!new)>(compilers: seq<Compiler<C>>, order: int)
    ensures
      var pipeline := BuildCompilerPipeline(compilers);
      && multiset(pipeline) == multiset(compilers)
      && (forall i, j :: 0 <= i < j < |pipeline| ==> pipeline[i].order <= pipeline[j].order)
      && Filter(pipeline, (c: Compiler<C>) => c.order == order) == Filter(compilers, (c: Compiler<C>) => c.order == order)
  {
    CompilerLeIsOrder<C>();
    SortIs(compilers, CompilerLe<C>);
    if z :| z in compilers && z.order == order {
      SortStable(compilers, CompilerLe<C>, z);
      FilterSame(compilers, Beside(z, CompilerLe<C>), (c: Compiler<C>) => c.order == order);
      FilterSame(BuildCompilerPipeline(compilers), Beside(z, CompilerLe<C>), (c: Compiler<C>) => c.order == order);
    } else {
      SameMembers(compilers, BuildCompilerPipeline(compilers));
      FilterNone(compilers, (c: Compiler<C>) => c.order == order);
      FilterNone(BuildCompilerPipeline(compilers), (c: Compiler<C>) => c.order == order);
    }
  }
}
