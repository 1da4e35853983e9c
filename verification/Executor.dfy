/**
 Whole deploy and destroy runs over the stored Terraform state, with a provider that may fail anywhere.

 Everything outside the executor is an Environment of functions. A run touches each resource at most
 once, so functions of the resource (and of what is passed) cover every possible behaviour of the
 provider, the interpolation and the state store.
 */
module Executor {
  import opened Wrappers
  import opened Interpolation
  import opened DependencyGraph
  import opened Resolver
  import opened OrderFilter
  import opened TerraformState

  type Properties = map<string, Value>

  datatype Environment = Environment(
    acquire: Resource -> bool,                                                // GetProvider succeeds
    interpolate: (Properties, map<Key, Attributes>) -> Result<Properties, string>,
    create: (Resource, Properties) -> Result<Attributes, string>,
    update: (Resource, Attributes, Properties) -> Result<Attributes, string>,
    delete: (Resource, Attributes) -> bool,
    saves: Resource -> bool,                                                  // the save after this resource succeeds
    lineage: Resource -> string)                                              // lineage of a state created for it

  function IdOf(r: Resource): Id {
    Id(r.rtype, r.name)
  }

  type Store = map<string, StateFile>

  /** The instances the stored state of a deployment has for an id. */
  function Stored(files: Store, dep: string, id: Id): Option<seq<Attributes>> {
    if dep in files then Lookup(files[dep].entries, id) else None
  }

  ghost predicate UniqueStored(files: Store, dep: string) {
    dep in files ==> Unique(files[dep].entries)
  }

  /** The attributes of an existing resource: those of its first instance. */
  function Existing(stored: Option<seq<Attributes>>): Option<Attributes> {
    if stored.Some? && stored.value != [] then Some(stored.value[0]) else None
  }

  /** A call of a provider that creates or updates. */
  datatype ProviderCall =
    | CreateCall(r: Resource, props: Properties)
    | UpdateCall(r: Resource, existing: Attributes, props: Properties)

  function Reply(env: Environment, call: ProviderCall): Result<Attributes, string> {
    match call
    case CreateCall(r, props) => env.create(r, props)
    case UpdateCall(r, existing, props) => env.update(r, existing, props)
  }

  /** The call that processing a resource makes, if it comes to one: an update of what exists, otherwise a creation. */
  function CallFor(env: Environment, r: Resource, existing: Option<Attributes>, context: map<Key, Attributes>)
    : Option<ProviderCall>
  {
    if !env.acquire(r) then None else
    var props := env.interpolate(r.properties, context);
    if props.Err? then None
    else if existing.Some? then Some(UpdateCall(r, existing.value, props.value))
    else Some(CreateCall(r, props.value))
  }

  /** A call was made and answered with `a`. */
  predicate Answers(env: Environment, call: Option<ProviderCall>, a: Attributes) {
    call.Some? && Reply(env, call.value) == Ok(a)
  }

  predicate Refused(env: Environment, call: Option<ProviderCall>) {
    call.None? || Reply(env, call.value).Err?
  }

  // ---------------------------------------------------------------- sorting

  /** The last resource of the request for each key. */
  method BuildResourceMap(rs: seq<Resource>) returns (m: map<Key, Resource>)
    ensures KeyedBy(rs, ResourceKey, m)
  {
    m := map[];
    for i := 0 to |rs|
      invariant KeyedBy(rs[..i], ResourceKey, m)
    {
      KeyedByStep(rs, i, ResourceKey, m);
      m := m[ResourceKey(rs[i]) := rs[i]];
    }
    assert rs[..|rs|] == rs;
  }

  ghost predicate KeysDistinct(rs: seq<Resource>) {
    forall i, j :: 0 <= i < j < |rs| ==> ResourceKey(rs[i]) != ResourceKey(rs[j])
  }

  /** Each requested key once, with the last resource that has it. */
  ghost predicate CoversRequest(request: seq<Resource>, sorted: seq<Resource>) {
    && KeysDistinct(sorted)
    && (forall r :: r in request ==> exists i :: 0 <= i < |sorted| && ResourceKey(sorted[i]) == ResourceKey(r))
    && (forall i :: 0 <= i < |sorted| ==> LastWithKey(request, ResourceKey, ResourceKey(sorted[i]), sorted[i]))
  }

  /** The i-th resource depends on the j-th, directly or not. */
  ghost predicate Needs(g: Graph, rs: seq<Resource>, i: nat, j: nat) {
    i < |rs| && j < |rs| && DependsOn(g, ResourceKey(rs[i]), ResourceKey(rs[j]))
  }

  ghost predicate DependenciesBefore(g: Graph, rs: seq<Resource>) {
    forall i, j :: Needs(g, rs, i, j) ==> j < i
  }

  ghost predicate DependentsBefore(g: Graph, rs: seq<Resource>) {
    forall i, j :: Needs(g, rs, i, j) ==> i < j
  }

  lemma {:induction false} LastHasKey(rs: seq<Resource>, key: Key, r: Resource)
    requires LastWithKey(rs, ResourceKey, key, r)
    ensures ResourceKey(r) == key && r in rs
  {
    var last := rs[|rs| - 1];
    if ResourceKey(last) != key { LastHasKey(rs[..|rs| - 1], key, r); }
  }

  /** The entries of an order's kept keys are the request's resources, once each, dependencies first. */
  lemma SortedEntries(g: Graph, order: seq<Key>, rs: seq<Resource>, m: map<Key, Resource>)
    requires GraphOf(rs, [], g) && ExecutionOrder(g, order) && KeyedBy(rs, ResourceKey, m)
    ensures var keys := Keep(order, m.Keys);
            && CoversRequest(rs, Entries(keys, m)) && DependenciesBefore(g, Entries(keys, m))
            && CoversRequest(rs, Entries(Reversed(keys), m)) && DependentsBefore(g, Entries(Reversed(keys), m))
  {
    var keys := Keep(order, m.Keys);
    forall k | k in m ensures ResourceKey(m[k]) == k { LastHasKey(rs, k, m[k]); }
    KeepDistinct(g, order, m.Keys);
    ReversedDistinct(keys);
    forall r | r in rs ensures ResourceKey(r) in keys {
      DeclaredReachable(g, ResourceKey(r));
      KeepHolds(order, m.Keys, ResourceKey(r));
    }
    EntriesCover(keys, rs, m);
    forall r | r in rs ensures ResourceKey(r) in Reversed(keys) { ReversedHolds(keys, ResourceKey(r)); }
    EntriesCover(Reversed(keys), rs, m);
    forall i: nat, j: nat | Needs(g, Entries(keys, m), i, j) ensures j < i {
      EntriesOrdered(g, order, m, i, j);
    }
    forall i: nat, j: nat | Needs(g, Entries(Reversed(keys), m), i, j) ensures i < j {
      EntriesOrderedBack(g, order, m, i, j);
    }
  }

  lemma EntriesCover(keys: seq<Key>, rs: seq<Resource>, m: map<Key, Resource>)
    requires KeyedBy(rs, ResourceKey, m) && Distinct(keys)
    requires forall k :: k in keys ==> k in m
    requires forall k :: k in m ==> ResourceKey(m[k]) == k
    requires forall r :: r in rs ==> ResourceKey(r) in keys
    ensures CoversRequest(rs, Entries(keys, m))
  {
    var es := Entries(keys, m);
    assert forall i :: 0 <= i < |es| ==> keys[i] in keys && ResourceKey(es[i]) == keys[i];
    forall r | r in rs ensures exists i :: 0 <= i < |es| && ResourceKey(es[i]) == ResourceKey(r) {
      var i :| 0 <= i < |keys| && keys[i] == ResourceKey(r);
      assert ResourceKey(es[i]) == ResourceKey(r);
    }
  }

  lemma EntriesOrdered(g: Graph, order: seq<Key>, m: map<Key, Resource>, i: nat, j: nat)
    requires DependenciesFirst(g, order) && (forall k :: k in m ==> ResourceKey(m[k]) == k)
    requires Needs(g, Entries(Keep(order, m.Keys), m), i, j)
    ensures j < i
  {
    var keys := Keep(order, m.Keys);
    assert keys[i] in keys && keys[j] in keys;
    KeepOrdered(g, order, m.Keys, i, j);
  }

  lemma EntryKey(keys: seq<Key>, m: map<Key, Resource>, i: nat)
    requires (forall k :: k in keys ==> k in m) && (forall k :: k in m ==> ResourceKey(m[k]) == k)
    requires i < |keys|
    ensures ResourceKey(Entries(keys, m)[i]) == keys[i]
  {
  }

  lemma EntriesOrderedBack(g: Graph, order: seq<Key>, m: map<Key, Resource>, i: nat, j: nat)
    requires DependenciesFirst(g, order) && (forall k :: k in m ==> ResourceKey(m[k]) == k)
    requires Needs(g, Entries(Reversed(Keep(order, m.Keys)), m), i, j)
    ensures i < j
  {
    var keys := Reversed(Keep(order, m.Keys));
    EntryKey(keys, m, i);
    EntryKey(keys, m, j);
    KeepOrderedBack(g, order, m.Keys, i, j);
  }

  /** The result of a sort, for every graph of the request: an error exactly on a cycle, otherwise all of it in order. */
  ghost predicate SortedBy(rs: seq<Resource>, r: Result<seq<Resource>, OrderError>, forward: bool) {
    && (r.Ok? ==> CoversRequest(rs, r.value))
    && forall g :: GraphOf(rs, [], g) ==>
         && (r.Err? <==> HasReachableCycle(g))
         && (r.Ok? ==> if forward then DependenciesBefore(g, r.value) else DependentsBefore(g, r.value))
  }

  lemma SortedByEvery(rs: seq<Resource>, r: Result<seq<Resource>, OrderError>, forward: bool, g: Graph)
    requires GraphOf(rs, [], g) && (r.Err? <==> HasReachableCycle(g)) && (r.Ok? ==> CoversRequest(rs, r.value))
    requires r.Ok? ==> if forward then DependenciesBefore(g, r.value) else DependentsBefore(g, r.value)
    ensures SortedBy(rs, r, forward)
  {
    forall h | GraphOf(rs, [], h)
      ensures r.Err? <==> HasReachableCycle(h)
      ensures r.Ok? ==> if forward then DependenciesBefore(h, r.value) else DependentsBefore(h, r.value)
    {
      GraphUnique(rs, [], g, h);
      if HasReachableCycle(g) { SameCycles(g, h); }
      if HasReachableCycle(h) { SameCycles(h, g); }
      if r.Ok? {
        SameNeeds(g, h, r.value);
      }
    }
  }

  lemma SameNeeds(g: Graph, h: Graph, rs: seq<Resource>)
    requires SameEdges(g, h)
    ensures DependenciesBefore(g, rs) ==> DependenciesBefore(h, rs)
    ensures DependentsBefore(g, rs) ==> DependentsBefore(h, rs)
  {
    forall i: nat, j: nat | Needs(h, rs, i, j) ensures Needs(g, rs, i, j) {
      SameDependsOn(h, g, ResourceKey(rs[i]), ResourceKey(rs[j]));
    }
  }

  /** sortResourcesByDependencies. */
  method SortResources(rs: seq<Resource>) returns (r: Result<seq<Resource>, OrderError>, ghost g: Graph)
    ensures GraphOf(rs, [], g)
    ensures SortedBy(rs, r, true)
    ensures r.Err? <==> HasReachableCycle(g)
    ensures r.Ok? ==> CoversRequest(rs, r.value) && DependenciesBefore(g, r.value)
  {
    var graph := BuildDependencyGraph(rs, []);
    g := graph;
    var execution := GetExecutionOrder(graph);
    if execution.Err? {
      SortedByEvery(rs, Err(execution.error), true, g);
      return Err(execution.error), g;
    }
    var m := BuildResourceMap(rs);
    var sorted := SelectForward(execution.value, m.Keys, m);
    SortedEntries(g, execution.value, rs, m);
    SortedByEvery(rs, Ok(sorted), true, g);
    return Ok(sorted), g;
  }

  /** sortResourcesForDestruction. */
  method SortForDestruction(rs: seq<Resource>) returns (r: Result<seq<Resource>, OrderError>, ghost g: Graph)
    ensures GraphOf(rs, [], g)
    ensures SortedBy(rs, r, false)
    ensures r.Err? <==> HasReachableCycle(g)
    ensures r.Ok? ==> CoversRequest(rs, r.value) && DependentsBefore(g, r.value)
  {
    var graph := BuildDependencyGraph(rs, []);
    g := graph;
    var execution := GetExecutionOrder(graph);
    if execution.Err? {
      SortedByEvery(rs, Err(execution.error), false, g);
      return Err(execution.error), g;
    }
    var m := BuildResourceMap(rs);
    var sorted := SelectBackward(execution.value, m.Keys, m);
    SortedEntries(g, execution.value, rs, m);
    SortedByEvery(rs, Ok(sorted), false, g);
    return Ok(sorted), g;
  }
}
