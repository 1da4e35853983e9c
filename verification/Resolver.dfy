/** The production dependency resolver: graph building, cycle check, topological sort. */
module Resolver {
  import opened Wrappers
  import opened Interpolation
  import opened DependencyGraph

  // ---------------------------------------------------------------- graph building

  /** Appends the references of one value; the fields of an object come in any order. */
  method ExtractRecursive(v: Value, deps: seq<Key>) returns (deps': seq<Key>)
    ensures forall k :: k in deps' <==> k in deps || Mentions(v, k)
    decreases v
  {
    deps' := deps;
    match v {
      case Text(s) =>
        var refs := FindInterpolations(s);
        deps' := deps + refs;
      case Object(fields) =>
        var todo := fields.Keys;
        while todo != {}
          invariant todo <= fields.Keys
          invariant forall k :: k in deps' <==>
                      k in deps || exists f :: f in fields.Keys - todo && Mentions(fields[f], k)
          decreases |todo|
        {
          var f :| f in todo;
          deps' := ExtractRecursive(fields[f], deps');
          todo := todo - {f};
        }
      case List(items) =>
        for i := 0 to |items|
          invariant forall k :: k in deps' <==>
                      k in deps || exists j :: 0 <= j < i && Mentions(items[j], k)
        {
          deps' := ExtractRecursive(items[i], deps');
        }
      case Scalar =>
    }
  }

  method RemoveDuplicates(s: seq<Key>) returns (r: seq<Key>)
    ensures r == Deduplicated(s)
  {
    r := [];
    var keys: set<Key> := {};
    for i := 0 to |s|
      invariant r == Deduplicated(s[..i]) && keys == Elements(r)
    {
      assert s[..i + 1][..i] == s[..i];
      if s[i] !in keys {
        keys := keys + {s[i]};
        r := r + [s[i]];
      }
    }
    assert s[..|s|] == s;
  }

  /** extractDependencies: each key mentioned anywhere in the properties, once. */
  method ExtractDependencies(properties: map<string, Value>) returns (deps: seq<Key>)
    ensures DependenciesOf(properties, deps)
  {
    var all := ExtractRecursive(Object(properties), []);
    deps := RemoveDuplicates(all);
    DeduplicatedDistinct(all);
  }

  ghost predicate DependenciesOf(properties: map<string, Value>, deps: seq<Key>) {
    Distinct(deps) && forall k :: k in deps <==> Mentions(Object(properties), k)
  }

  function ResourceKey(r: Resource): Key {
    MakeKey(r.rtype, r.name)
  }

  function DataSourceKey(r: Resource): Key {
    "data." + MakeKey(r.rtype, r.name)
  }

  /** r is the last element of rs with the key. */
  ghost predicate LastWithKey(rs: seq<Resource>, keyOf: Resource -> Key, key: Key, r: Resource) {
    rs != [] &&
    var last := rs[|rs| - 1];
    if keyOf(last) == key then r == last else LastWithKey(rs[..|rs| - 1], keyOf, key, r)
  }

  /** m maps each key of rs to the last element with that key. */
  ghost predicate KeyedBy(rs: seq<Resource>, keyOf: Resource -> Key, m: map<Key, Resource>) {
    && (forall r :: r in rs ==> keyOf(r) in m)
    && (forall k :: k in m ==> LastWithKey(rs, keyOf, k, m[k]))
  }

  lemma KeyedByStep(rs: seq<Resource>, i: nat, keyOf: Resource -> Key, m: map<Key, Resource>)
    requires i < |rs| && KeyedBy(rs[..i], keyOf, m)
    ensures KeyedBy(rs[..i + 1], keyOf, m[keyOf(rs[i]) := rs[i]])
  {
    assert rs[..i + 1][..i] == rs[..i];
  }

  /** The graph of a request: nodes by key, edges by what the extractor finds. */
  ghost predicate GraphOf(rs: seq<Resource>, ds: seq<Resource>, g: Graph) {
    && KeyedBy(rs, ResourceKey, g.resources)
    && KeyedBy(ds, DataSourceKey, g.dataSources)
    && g.dependencies.Keys == g.Declared()
    && (forall k :: k in g.dataSources ==> DependenciesOf(g.dataSources[k].properties, g.dependencies[k]))
    && (forall k :: k in g.resources && k !in g.dataSources ==>
          DependenciesOf(g.resources[k].properties, g.dependencies[k]))
  }

  lemma {:induction false} LastUnique(rs: seq<Resource>, keyOf: Resource -> Key, key: Key, a: Resource, b: Resource)
    requires LastWithKey(rs, keyOf, key, a) && LastWithKey(rs, keyOf, key, b)
    ensures a == b && a in rs && keyOf(a) == key
  {
    if keyOf(rs[|rs| - 1]) != key {
      LastUnique(rs[..|rs| - 1], keyOf, key, a, b);
    }
  }

  lemma KeyedUnique(rs: seq<Resource>, keyOf: Resource -> Key, m: map<Key, Resource>, n: map<Key, Resource>)
    requires KeyedBy(rs, keyOf, m) && KeyedBy(rs, keyOf, n)
    ensures m == n
  {
    forall k | k in m ensures k in n && m[k] == n[k] {
      LastUnique(rs, keyOf, k, m[k], m[k]);
      LastUnique(rs, keyOf, k, m[k], n[k]);
    }
    forall k | k in n ensures k in m {
      LastUnique(rs, keyOf, k, n[k], n[k]);
    }
  }

  /** A request has one graph, up to the order in which dependencies are listed. */
  lemma GraphUnique(rs: seq<Resource>, ds: seq<Resource>, g: Graph, h: Graph)
    requires GraphOf(rs, ds, g) && GraphOf(rs, ds, h)
    ensures SameEdges(g, h)
  {
    KeyedUnique(rs, ResourceKey, g.resources, h.resources);
    KeyedUnique(ds, DataSourceKey, g.dataSources, h.dataSources);
  }

  /** The dependents map is the dependencies map turned around. */
  ghost predicate DependentsInvert(g: Graph) {
    forall a, b :: Listed(g.dependencies, a, b) <==> Listed(g.dependents, b, a)
  }

  method AddNodes(nodes: seq<Resource>, keyOf: Resource -> Key, before: map<Key, seq<Key>>)
    returns (byKey: map<Key, Resource>, dependencies: map<Key, seq<Key>>)
    ensures KeyedBy(nodes, keyOf, byKey)
    ensures dependencies.Keys == before.Keys + byKey.Keys
    ensures forall k :: k in byKey ==> DependenciesOf(byKey[k].properties, dependencies[k])
    ensures forall k :: k in before && k !in byKey ==> dependencies[k] == before[k]
  {
    byKey, dependencies := map[], before;
    for i := 0 to |nodes|
      invariant KeyedBy(nodes[..i], keyOf, byKey)
      invariant dependencies.Keys == before.Keys + byKey.Keys
      invariant forall k :: k in byKey ==> DependenciesOf(byKey[k].properties, dependencies[k])
      invariant forall k :: k in before && k !in byKey ==> dependencies[k] == before[k]
    {
      var key := keyOf(nodes[i]);
      KeyedByStep(nodes, i, keyOf, byKey);
      byKey := byKey[key := nodes[i]];
      var deps := ExtractDependencies(nodes[i].properties);
      dependencies := dependencies[key := deps];
    }
    assert nodes[..|nodes|] == nodes;
  }

  ghost predicate Listed(m: map<Key, seq<Key>>, b: Key, a: Key) {
    b in m && a in m[b]
  }

  /** The inner loop of the dependents pass. */
  method AddDependent(node: Key, deps: seq<Key>, before: map<Key, seq<Key>>)
    returns (dependents: map<Key, seq<Key>>)
    ensures forall a, b :: Listed(dependents, b, a) <==> Listed(before, b, a) || (a == node && b in deps)
  {
    dependents := before;
    for i := 0 to |deps|
      invariant forall a, b :: Listed(dependents, b, a) <==>
                  Listed(before, b, a) || (a == node && b in deps[..i])
    {
      var dep := deps[i];
      var sofar := if dep in dependents then dependents[dep] else [];
      ghost var prev := dependents;
      dependents := dependents[dep := sofar + [node]];
      assert deps[..i + 1] == deps[..i] + [dep];
      assert forall a, b :: Listed(dependents, b, a) <==> Listed(prev, b, a) || (a == node && b == dep);
    }
    assert deps[..|deps|] == deps;
  }

  method BuildDependents(dependencies: map<Key, seq<Key>>) returns (dependents: map<Key, seq<Key>>)
    ensures forall a, b :: Listed(dependents, b, a) <==> Listed(dependencies, a, b)
  {
    dependents := map[];
    var todo := dependencies.Keys;
    while todo != {}
      invariant todo <= dependencies.Keys
      invariant forall a, b :: Listed(dependents, b, a) <==> Listed(dependencies, a, b) && a !in todo
      decreases |todo|
    {
      var node :| node in todo;
      dependents := AddDependent(node, dependencies[node], dependents);
      todo := todo - {node};
    }
  }

  method BuildDependencyGraph(rs: seq<Resource>, ds: seq<Resource>) returns (g: Graph)
    ensures GraphOf(rs, ds, g)
    ensures DependentsInvert(g)
    ensures forall r :: r in rs ==> r.rtype + "." + r.name in g.resources
    ensures forall d :: d in ds ==> "data." + (d.rtype + "." + d.name) in g.dataSources
  {
    var resources, dataSources, dependencies;
    resources, dependencies := AddNodes(rs, ResourceKey, map[]);
    dataSources, dependencies := AddNodes(ds, DataSourceKey, dependencies);
    var dependents := BuildDependents(dependencies);
    g := Graph(resources, dataSources, dependencies, dependents);
  }

  /** ValidateDependenciesExist: fails exactly when some dependency dangles, and names one that does. */
  method ValidateDependenciesExist(g: Graph) returns (dangling: Option<(Key, Key)>)
    ensures dangling.None? <==> DependenciesExist(g)
    ensures dangling.Some? ==>
              dangling.value.1 in g.Deps(dangling.value.0) && dangling.value.1 !in g.Declared()
  {
    var allNodes := g.Declared();
    var todo := g.dependencies.Keys;
    while todo != {}
      invariant todo <= g.dependencies.Keys
      invariant forall k :: k in g.dependencies.Keys - todo ==>
                  forall d :: d in g.dependencies[k] ==> d in allNodes
      decreases |todo|
    {
      var node :| node in todo;
      var deps := g.dependencies[node];
      for i := 0 to |deps|
        invariant forall d :: d in deps[..i] ==> d in allNodes
      {
        if deps[i] !in allNodes {
          return Some((node, deps[i]));
        }
      }
      assert deps[..|deps|] == deps;
      todo := todo - {node};
    }
    return None;
  }

  // ---------------------------------------------------------------- cycle check

  /** The three colours of the depth-first cycle check. */
  class CycleChecker {
    const g: Graph
    var white: set<Key>
    var gray: set<Key>
    var black: set<Key>
    ghost var finished: seq<Key> // the black nodes in the order they turned black

    ghost predicate Valid()
      reads this
    {
      && DependenciesFirst(g, finished)
      && black == Elements(finished)
      && gray !! black && white !! gray && white !! black
      && g.Declared() <= white + gray + black
      && white <= g.Universe()
    }

    /** The gray nodes are exactly the current path, a walk that starts at a declared node. */
    ghost predicate OnPath(path: seq<Key>)
      reads this
    {
      && gray == Elements(path)
      && (path != [] ==> Walk(g, path) && path[0] in g.Declared())
    }

    constructor (graph: Graph)
      ensures Valid() && OnPath([]) && g == graph && white == graph.Declared() && black == {}
      ensures fresh(this)
    {
      g := graph;
      white, gray, black, finished := graph.Declared(), {}, {}, [];
    }

    /** The gray case: the part of the path from the node's place on, closed by the node itself. */
    method ReportCycle(node: Key, path: seq<Key>) returns (cycle: seq<Key>)
      requires OnPath(path) && node in gray && node in g.Deps(path[|path| - 1])
      ensures ReachableCycle(g, cycle)
    {
      var cycleStart := 0;
      while path[cycleStart] != node
        invariant 0 <= cycleStart < |path| && node in path[cycleStart..]
        decreases |path| - cycleStart
      {
        cycleStart := cycleStart + 1;
      }
      cycle := path[cycleStart..] + [node];
      WalkSuffix(g, path, cycleStart);
      WalkExtends(g, path[cycleStart..], node);
      WalkPrefixReachable(g, path, cycleStart);
    }

    method Enter(node: Key, ghost path: seq<Key>)
      requires Valid() && OnPath(path) && node !in gray && node !in black
      requires if path == [] then node in g.Declared() else node in g.Deps(path[|path| - 1])
      modifies this
      ensures Valid() && OnPath(path + [node])
      ensures white == old(white) - {node} && gray == old(gray) + {node} && black == old(black)
    {
      PathExtends(g, path, node);
      white := white - {node};
      gray := gray + {node};
    }

    method Leave(node: Key, ghost path: seq<Key>)
      requires Valid() && OnPath(path + [node]) && node !in path
      requires path != [] ==> Walk(g, path) && path[0] in g.Declared()
      requires forall d :: d in g.Deps(node) ==> d in black
      modifies this
      ensures Valid() && OnPath(path)
      ensures white == old(white) && gray == old(gray) - {node} && black == old(black) + {node}
    {
      ElementsSnoc(path, node);
      ElementsSnoc(finished, node);
      OrderExtends(g, finished, node);
      gray := gray - {node};
      black := black + {node};
      finished := finished + [node];
    }

    method Dfs(node: Key, path: seq<Key>) returns (cycle: Option<seq<Key>>)
      requires Valid() && OnPath(path) && node in g.Universe()
      requires if path == [] then node in g.Declared() else node in g.Deps(path[|path| - 1])
      modifies this
      ensures cycle.Some? ==> ReachableCycle(g, cycle.value)
      ensures cycle.None? ==>
                && Valid() && OnPath(path) && gray == old(gray)
                && old(black) <= black && node in black && white <= old(white)
      decreases g.Universe() - (gray + black)
    {
      if node in gray {
        var c := ReportCycle(node, path);
        return Some(c);
      }
      if node in black {
        return None;
      }
      Enter(node, path);
      var deps := g.Deps(node);
      for i := 0 to |deps|
        invariant Valid() && OnPath(path + [node]) && gray == old(gray) + {node}
        invariant old(black) <= black && white <= old(white)
        invariant forall d :: d in deps[..i] ==> d in black
      {
        DepsInUniverse(g, node, deps[i]);
        Shrinks(g.Universe(), old(gray + black), gray + black, node);
        cycle := Dfs(deps[i], path + [node]);
        if cycle.Some? {
          return;
        }
      }
      assert deps[..|deps|] == deps;
      Leave(node, path);
      return None;
    }
  }

  lemma {:induction false} WalkPrefixReachable(g: Graph, w: seq<Key>, k: nat)
    requires Walk(g, w) && k < |w| && w[0] in g.Declared()
    ensures Reachable(g, w[k])
  {
    if k < |w| - 1 {
      WalkPrefixReachable(g, w[..|w| - 1], k);
    }
  }

  /**
   ValidateNoCycles: for every order in which the nodes are taken, an error exactly when a cycle can
   be reached from a declared node, and the reported sequence is such a cycle.
   */
  method ValidateNoCycles(g: Graph) returns (cycle: Option<seq<Key>>)
    ensures cycle.Some? ==> ReachableCycle(g, cycle.value)
    ensures cycle.Some? <==> HasReachableCycle(g)
  {
    var c := new CycleChecker(g);
    while c.white != {}
      invariant c.Valid() && c.OnPath([]) && c.g == g && fresh(c)
      decreases c.white
    {
      var node :| node in c.white;
      cycle := c.Dfs(node, []);
      if cycle.Some? {
        return;
      }
    }
    OrderImpliesAcyclic(g, c.finished);
    return None;
  }

  lemma Shrinks(universe: set<Key>, before: set<Key>, now: set<Key>, x: Key)
    requires before <= now && x in universe && x !in before && x in now
    ensures universe - now < universe - before
  {
    assert x in universe - before && x !in universe - now;
  }

  // ---------------------------------------------------------------- topological sort

  ghost predicate AllReachable(g: Graph, nodes: seq<Key>) {
    forall x :: x in nodes ==> Reachable(g, x)
  }

  lemma ReachableExtends(g: Graph, nodes: seq<Key>, path: seq<Key>, node: Key)
    requires AllReachable(g, nodes)
    requires Walk(g, path + [node]) && (path + [node])[0] in g.Declared()
    ensures AllReachable(g, nodes + [node])
  {
    assert (path + [node])[|path|] == node;
    WalkPrefixReachable(g, path + [node], |path|);
  }

  /** The state of the depth-first sort. */
  class Sorter {
    const g: Graph
    var visited: set<Key>
    var temp: set<Key>
    var result: seq<Key>

    ghost predicate Valid()
      reads this
    {
      && DependenciesFirst(g, result)
      && visited == Elements(result)
      && visited !! temp
      && AllReachable(g, result)
    }

    ghost predicate OnPath(path: seq<Key>)
      reads this
    {
      && temp == Elements(path)
      && (path != [] ==> Walk(g, path) && path[0] in g.Declared())
    }

    constructor (graph: Graph)
      ensures Valid() && OnPath([]) && g == graph && fresh(this)
    {
      g := graph;
      visited, temp, result := {}, {}, [];
    }

    method Enter(node: Key, ghost path: seq<Key>)
      requires Valid() && OnPath(path) && node !in temp && node !in visited
      requires if path == [] then node in g.Declared() else node in g.Deps(path[|path| - 1])
      modifies this
      ensures Valid() && OnPath(path + [node])
      ensures temp == old(temp) + {node} && visited == old(visited)
    {
      PathExtends(g, path, node);
      temp := temp + {node};
    }

    method Leave(node: Key, ghost path: seq<Key>)
      requires Valid() && OnPath(path + [node]) && node !in path
      requires path != [] ==> Walk(g, path) && path[0] in g.Declared()
      requires forall d :: d in g.Deps(node) ==> d in visited
      modifies this
      ensures Valid() && OnPath(path)
      ensures temp == old(temp) - {node} && visited == old(visited) + {node}
    {
      ElementsSnoc(path, node);
      ElementsSnoc(result, node);
      OrderExtends(g, result, node);
      ReachableExtends(g, result, path, node);
      temp := temp - {node};
      visited := visited + {node};
      result := result + [node];
    }

    /** The closure `visit`. Its own cycle error can only arise where the graph has a cycle. */
    method Visit(node: Key, ghost path: seq<Key>) returns (err: Option<Key>)
      requires Valid() && OnPath(path) && node in g.Universe()
      requires if path == [] then node in g.Declared() else node in g.Deps(path[|path| - 1])
      modifies this
      ensures err.Some? ==> HasReachableCycle(g)
      ensures err.None? ==>
                && Valid() && OnPath(path) && temp == old(temp)
                && old(visited) <= visited && node in visited
      decreases g.Universe() - (temp + visited)
    {
      if node in visited {
        return None;
      }
      if node in temp {
        PathCycle(g, path, node);
        return Some(node);
      }
      Enter(node, path);
      var deps := g.Deps(node);
      for i := 0 to |deps|
        invariant Valid() && OnPath(path + [node]) && temp == old(temp) + {node}
        invariant old(visited) <= visited
        invariant forall d :: d in deps[..i] ==> d in visited
      {
        DepsInUniverse(g, node, deps[i]);
        Shrinks(g.Universe(), old(temp + visited), temp + visited, node);
        err := Visit(deps[i], path + [node]);
        if err.Some? {
          return;
        }
      }
      assert deps[..|deps|] == deps;
      Leave(node, path);
      return None;
    }
  }

  lemma PathExtends(g: Graph, path: seq<Key>, node: Key)
    requires path != [] ==> Walk(g, path) && path[0] in g.Declared()
    requires if path == [] then node in g.Declared() else node in g.Deps(path[|path| - 1])
    ensures Walk(g, path + [node]) && (path + [node])[0] in g.Declared()
  {
    if path != [] { WalkExtends(g, path, node); }
  }

  lemma PathCycle(g: Graph, path: seq<Key>, node: Key)
    requires node in path && Walk(g, path) && path[0] in g.Declared() && node in g.Deps(path[|path| - 1])
    ensures HasReachableCycle(g)
  {
    var k :| 0 <= k < |path| && path[k] == node;
    WalkSuffix(g, path, k);
    WalkExtends(g, path[k..], node);
    WalkPrefixReachable(g, path, k);
    assert ReachableCycle(g, path[k..] + [node]);
  }

  lemma OrderComplete(g: Graph, order: seq<Key>)
    requires DependenciesFirst(g, order) && AllReachable(g, order)
    requires g.Declared() <= Elements(order)
    ensures ExecutionOrder(g, order)
  {
    forall x | Reachable(g, x) ensures x in order {
      OrderHoldsReachable(g, order, x);
    }
  }

  datatype OrderError = CycleFound(cycle: seq<Key>) | CycleAt(node: Key)

  /**
   GetExecutionOrder: for every order in which the nodes are taken, an error exactly when a cycle
   can be reached; otherwise each reachable node once, after all it depends on.
   */
  method GetExecutionOrder(g: Graph) returns (r: Result<seq<Key>, OrderError>)
    ensures r.Err? <==> HasReachableCycle(g)
    ensures r.Err? ==> r.error.CycleFound?
    ensures r.Ok? ==> ExecutionOrder(g, r.value)
  {
    var cycle := ValidateNoCycles(g);
    if cycle.Some? {
      return Err(CycleFound(cycle.value));
    }
    var s := new Sorter(g);
    var allNodes := g.Declared();
    while allNodes != {}
      invariant s.Valid() && s.OnPath([]) && s.g == g && fresh(s)
      invariant allNodes <= g.Declared() <= allNodes + s.visited
      decreases |allNodes|
    {
      var node :| node in allNodes;
      var err := s.Visit(node, []);
      if err.Some? {
        assert false; // a cycle-free graph never reaches the sort's own cycle error
      }
      allNodes := allNodes - {node};
    }
    OrderComplete(g, s.result);
    return Ok(s.result);
  }
}
