/** The dependency graph of a request, and what walks, cycles and execution orders of it are. */
module DependencyGraph {
  import opened Wrappers
  import opened Interpolation

  /** A JSON-like property value. */
  datatype Value =
    | Text(s: string)
    | Object(fields: map<string, Value>)
    | List(items: seq<Value>)
    | Scalar

  datatype Resource = Resource(rtype: string, name: string, properties: map<string, Value>)

  function MakeKey(rtype: string, name: string): Key {
    rtype + "." + name
  }

  /** An interpolation somewhere inside `v` refers to `key`. */
  ghost predicate Mentions(v: Value, key: Key) {
    match v
    case Text(s) => StringMentions(s, key)
    case Object(fields) => exists f :: f in fields && Mentions(fields[f], key)
    case List(items) => exists i :: 0 <= i < |items| && Mentions(items[i], key)
    case Scalar => false
  }

  /** A step into a nested value. */
  datatype Part = Field(name: string) | Item(index: nat)

  /** The value at the end of a path. */
  function ValueAt(v: Value, path: seq<Part>): Option<Value>
    decreases |path|
  {
    if path == [] then Some(v)
    else match (v, path[0])
      case (Object(fields), Field(f)) => if f in fields then ValueAt(fields[f], path[1..]) else None
      case (List(items), Item(i)) => if i < |items| then ValueAt(items[i], path[1..]) else None
      case _ => None
  }

  /** The path leads to a string that refers to the key. */
  ghost predicate RefersAt(v: Value, path: seq<Part>, key: Key) {
    ValueAt(v, path).Some? && ValueAt(v, path).value.Text? && StringMentions(ValueAt(v, path).value.s, key)
  }

  /** A value mentions a key exactly if a string anywhere inside it refers to the key. */
  lemma MentionsExactly(v: Value, key: Key)
    ensures Mentions(v, key) <==> exists path :: RefersAt(v, path, key)
  {
    if Mentions(v, key) {
      var path := MentionedAt(v, key);
    }
    if path :| RefersAt(v, path, key) {
      RefersMeansMentions(v, path, key);
    }
  }

  lemma {:induction false} MentionedAt(v: Value, key: Key) returns (path: seq<Part>)
    requires Mentions(v, key)
    ensures RefersAt(v, path, key)
  {
    match v {
      case Text(_) => path := [];
      case Object(fields) =>
        var f :| f in fields && Mentions(fields[f], key);
        var rest := MentionedAt(fields[f], key);
        path := [Field(f)] + rest;
        assert path[1..] == rest;
      case List(items) =>
        var i: nat :| i < |items| && Mentions(items[i], key);
        var rest := MentionedAt(items[i], key);
        path := [Item(i)] + rest;
        assert path[1..] == rest;
    }
  }

  lemma {:induction false} RefersMeansMentions(v: Value, path: seq<Part>, key: Key)
    requires RefersAt(v, path, key)
    ensures Mentions(v, key)
    decreases |path|
  {
    if path != [] {
      match v {
        case Object(fields) => RefersMeansMentions(fields[path[0].name], path[1..], key);
        case List(items) => RefersMeansMentions(items[path[0].index], path[1..], key);
      }
    }
  }

  datatype Graph = Graph(
    resources: map<Key, Resource>,
    dataSources: map<Key, Resource>,
    dependencies: map<Key, seq<Key>>,
    dependents: map<Key, seq<Key>>)
  {
    function Declared(): set<Key> {
      resources.Keys + dataSources.Keys
    }

    /** What a node depends on; nothing for a node without an entry, as Go's nil slice. */
    function Deps(k: Key): seq<Key> {
      if k in dependencies then dependencies[k] else []
    }

    /** Every key the graph speaks about. */
    function Universe(): set<Key> {
      Declared() + set k, d | k in dependencies && d in dependencies[k] :: d
    }
  }

  lemma DepsInUniverse(g: Graph, k: Key, d: Key)
    requires d in g.Deps(k)
    ensures d in g.Universe()
  {
  }

  // ---------------------------------------------------------------- walks

  /** Each node of w depends on the next one. */
  ghost predicate Walk(g: Graph, w: seq<Key>) {
    && w != []
    && (|w| > 1 ==> Walk(g, w[..|w| - 1]) && w[|w| - 1] in g.Deps(w[|w| - 2]))
  }

  ghost predicate Cycle(g: Graph, c: seq<Key>) {
    |c| > 1 && Walk(g, c) && c[0] == c[|c| - 1]
  }

  ghost predicate WalkBetween(g: Graph, w: seq<Key>, a: Key, b: Key) {
    Walk(g, w) && w[0] == a && w[|w| - 1] == b
  }

  /** a depends on b, directly or through other nodes, declared or not. */
  ghost predicate DependsOn(g: Graph, a: Key, b: Key) {
    exists w :: |w| > 1 && WalkBetween(g, w, a, b)
  }

  ghost predicate Reachable(g: Graph, x: Key) {
    exists w :: Walk(g, w) && w[0] in g.Declared() && w[|w| - 1] == x
  }

  ghost predicate ReachableCycle(g: Graph, c: seq<Key>) {
    Cycle(g, c) && Reachable(g, c[0])
  }

  ghost predicate HasReachableCycle(g: Graph) {
    exists c :: ReachableCycle(g, c)
  }

  lemma WalkExtends(g: Graph, w: seq<Key>, x: Key)
    requires Walk(g, w) && x in g.Deps(w[|w| - 1])
    ensures Walk(g, w + [x])
  {
    assert (w + [x])[..|w|] == w;
  }

  lemma {:induction false} WalkSuffix(g: Graph, w: seq<Key>, k: nat)
    requires Walk(g, w) && k < |w|
    ensures Walk(g, w[k..])
  {
    if k < |w| - 1 {
      WalkSuffix(g, w[..|w| - 1], k);
      assert w[k..][..|w| - k - 1] == w[..|w| - 1][k..];
    }
  }

  lemma DeclaredReachable(g: Graph, x: Key)
    requires x in g.Declared()
    ensures Reachable(g, x)
  {
    assert Walk(g, [x]);
    assert [x][0] in g.Declared();
  }

  // ---------------------------------------------------------------- orders

  /** No node twice, and every node after all it depends on. */
  ghost predicate DependenciesFirst(g: Graph, order: seq<Key>) {
    order == [] ||
    var init, last := order[..|order| - 1], order[|order| - 1];
    && DependenciesFirst(g, init)
    && last !in init
    && forall d :: d in g.Deps(last) ==> d in init
  }

  lemma OrderExtends(g: Graph, order: seq<Key>, x: Key)
    requires DependenciesFirst(g, order) && x !in order
    requires forall d :: d in g.Deps(x) ==> d in order
    ensures DependenciesFirst(g, order + [x])
  {
    assert (order + [x])[..|order|] == order;
  }

  lemma {:induction false} OrderAt(g: Graph, order: seq<Key>, i: nat)
    requires DependenciesFirst(g, order) && i < |order|
    ensures order[i] !in order[..i]
    ensures forall d :: d in g.Deps(order[i]) ==> d in order[..i]
  {
    if i < |order| - 1 {
      var init := order[..|order| - 1];
      OrderAt(g, init, i);
      assert init[..i] == order[..i];
    }
  }

  lemma OrderDistinct(g: Graph, order: seq<Key>)
    requires DependenciesFirst(g, order)
    ensures Distinct(order)
  {
    forall i, j | 0 <= i < j < |order| ensures order[i] != order[j] {
      OrderAt(g, order, j);
      assert order[..j][i] == order[i];
    }
  }

  /** Along a walk an order can only be left behind: the end stands strictly before the start. */
  lemma {:induction false} WalkDescends(g: Graph, order: seq<Key>, w: seq<Key>, i: nat)
    requires DependenciesFirst(g, order) && i < |order|
    requires Walk(g, w) && |w| > 1 && w[0] == order[i]
    ensures w[|w| - 1] in order[..i]
  {
    if |w| == 2 {
      OrderAt(g, order, i);
    } else {
      var w' := w[..|w| - 1];
      WalkDescends(g, order, w', i);
      var j :| 0 <= j < i && order[..i][j] == w'[|w'| - 1];
      OrderAt(g, order, j);
      assert order[..j] <= order[..i];
    }
  }

  /** A dependencies-first order admits no cycle through any of its nodes. */
  lemma OrderExcludesCycles(g: Graph, order: seq<Key>, c: seq<Key>)
    requires DependenciesFirst(g, order) && c != [] && c[0] in order
    ensures !Cycle(g, c)
  {
    if Cycle(g, c) {
      var i :| 0 <= i < |order| && order[i] == c[0];
      WalkDescends(g, order, c, i);
      OrderAt(g, order, i);
    }
  }

  lemma OrderHoldsReachable(g: Graph, order: seq<Key>, x: Key)
    requires DependenciesFirst(g, order) && (forall k :: k in g.Declared() ==> k in order)
    requires Reachable(g, x)
    ensures x in order
  {
    var w :| Walk(g, w) && w[0] in g.Declared() && w[|w| - 1] == x;
    if |w| > 1 {
      var i :| 0 <= i < |order| && order[i] == w[0];
      WalkDescends(g, order, w, i);
    }
  }

  /** An order that covers the declared nodes exists only where no cycle can be reached. */
  lemma OrderImpliesAcyclic(g: Graph, order: seq<Key>)
    requires DependenciesFirst(g, order) && (forall k :: k in g.Declared() ==> k in order)
    ensures !HasReachableCycle(g)
  {
    forall c | ReachableCycle(g, c) ensures false {
      OrderHoldsReachable(g, order, c[0]);
      OrderExcludesCycles(g, order, c);
    }
  }

  /** What a correct execution order is: exactly the reachable nodes, once each, dependencies first. */
  ghost predicate ExecutionOrder(g: Graph, order: seq<Key>) {
    DependenciesFirst(g, order) && forall x :: x in order <==> Reachable(g, x)
  }

  /** Direct or not, through dangling nodes or not: what a node depends on stands strictly before it. */
  lemma DependencyStandsBefore(g: Graph, order: seq<Key>, a: Key, b: Key, i: nat)
    requires DependenciesFirst(g, order) && i < |order| && order[i] == a
    requires DependsOn(g, a, b)
    ensures b in order[..i] && b !in order[i..]
  {
    var w :| |w| > 1 && WalkBetween(g, w, a, b);
    WalkDescends(g, order, w, i);
    OrderDistinct(g, order);
    var j :| 0 <= j < i && order[..i][j] == b;
    assert forall k :: i <= k < |order| ==> order[k] != order[j];
  }

  ghost predicate DependenciesExist(g: Graph) {
    forall k :: k in g.dependencies ==> forall d :: d in g.dependencies[k] ==> d in g.Declared()
  }

  lemma {:induction false} ReachableIsDeclared(g: Graph, w: seq<Key>)
    requires DependenciesExist(g) && Walk(g, w) && w[0] in g.Declared()
    ensures w[|w| - 1] in g.Declared()
  {
    if |w| > 1 {
      ReachableIsDeclared(g, w[..|w| - 1]);
    }
  }

  /** Where no dependency dangles, an execution order is a permutation of the declared nodes. */
  lemma OrderIsPermutation(g: Graph, order: seq<Key>)
    requires ExecutionOrder(g, order) && DependenciesExist(g)
    ensures Distinct(order) && Elements(order) == g.Declared() && |order| == |g.Declared()|
  {
    OrderDistinct(g, order);
    forall x ensures x in order <==> x in g.Declared() {
      if x in order {
        var w :| Walk(g, w) && w[0] in g.Declared() && w[|w| - 1] == x;
        ReachableIsDeclared(g, w);
      } else if x in g.Declared() {
        DeclaredReachable(g, x);
      }
    }
    assert Elements(order) == g.Declared();
    DistinctSize(order);
  }

  // ---------------------------------------------------------------- graphs with the same edges

  /** The same declared nodes, and the same dependencies up to the order they are listed in. */
  ghost predicate SameEdges(g: Graph, h: Graph) {
    g.Declared() == h.Declared() && forall k, d :: d in g.Deps(k) <==> d in h.Deps(k)
  }

  lemma {:induction false} SameWalk(g: Graph, h: Graph, w: seq<Key>)
    requires SameEdges(g, h)
    ensures Walk(g, w) <==> Walk(h, w)
  {
    if |w| > 1 {
      SameWalk(g, h, w[..|w| - 1]);
    }
  }

  lemma SameDependsOn(g: Graph, h: Graph, a: Key, b: Key)
    requires SameEdges(g, h) && DependsOn(g, a, b)
    ensures DependsOn(h, a, b)
  {
    var w :| |w| > 1 && WalkBetween(g, w, a, b);
    SameWalk(g, h, w);
    assert WalkBetween(h, w, a, b);
  }

  lemma SameCycles(g: Graph, h: Graph)
    requires SameEdges(g, h) && HasReachableCycle(g)
    ensures HasReachableCycle(h)
  {
    var c :| ReachableCycle(g, c);
    SameWalk(g, h, c);
    var w :| Walk(g, w) && w[0] in g.Declared() && w[|w| - 1] == c[0];
    SameWalk(g, h, w);
    assert ReachableCycle(h, c);
  }
}
