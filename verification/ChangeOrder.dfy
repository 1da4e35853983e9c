/** The change-order calculator of the update workflow. */
module ChangeOrder {
  import opened Wrappers
  import opened Interpolation
  import opened DependencyGraph
  import opened Resolver
  import opened OrderFilter

  datatype Action = Create | Update | Delete | Replace | NoOp | Unrecognised

  /** A planned change; `before` and `after` are nil or a property map. */
  datatype Change = Change(key: Key, action: Action,
                           before: Option<map<string, Value>>, after: Option<map<string, Value>>)

  /** Which side of the change its dependencies are read from. */
  function PropertiesFor(c: Change): map<string, Value> {
    var chosen := match c.action
      case Create | Update | Replace => c.after
      case Delete => c.before
      case NoOp => if c.after.None? then c.before else c.after
      case Unrecognised => None;
    if chosen.Some? then chosen.value else map[]
  }

  predicate Dotted(key: Key) {
    '.' in key
  }

  /** The resource of a change with a dotted key: type up to the first dot, name after it. */
  function AsResource(c: Change): (r: Resource)
    requires Dotted(c.key)
    ensures ResourceKey(r) == c.key && r.properties == PropertiesFor(c)
  {
    var dot := IndexOf(c.key, '.', 0);
    var rtype, name := c.key[..dot], c.key[dot + 1..];
    assert rtype + "." + name == c.key;
    Resource(rtype, name, PropertiesFor(c))
  }

  /** Changes whose key has no dot are skipped. */
  function Converted(changes: seq<Change>): seq<Resource> {
    if changes == [] then []
    else
      var rest, c := Converted(changes[..|changes| - 1]), changes[|changes| - 1];
      if Dotted(c.key) then rest + [AsResource(c)] else rest
  }

  method ConvertChangesToResources(changes: seq<Change>) returns (resources: seq<Resource>)
    ensures resources == Converted(changes)
  {
    resources := [];
    for i := 0 to |changes|
      invariant resources == Converted(changes[..i])
    {
      assert changes[..i + 1][..i] == changes[..i];
      if Dotted(changes[i].key) {
        resources := resources + [AsResource(changes[i])];
      }
    }
    assert changes[..|changes|] == changes;
  }

  /** c is the last change with its key. */
  ghost predicate LastChange(changes: seq<Change>, key: Key, c: Change) {
    changes != [] &&
    var last := changes[|changes| - 1];
    if last.key == key then c == last else LastChange(changes[..|changes| - 1], key, c)
  }

  ghost predicate ChangeMap(changes: seq<Change>, m: map<Key, Change>) {
    && (forall c :: c in changes ==> c.key in m)
    && (forall k :: k in m ==> LastChange(changes, k, m[k]))
  }

  method BuildChangeMap(changes: seq<Change>) returns (m: map<Key, Change>)
    ensures ChangeMap(changes, m)
  {
    m := map[];
    for i := 0 to |changes|
      invariant ChangeMap(changes[..i], m)
    {
      assert changes[..i + 1][..i] == changes[..i];
      m := m[changes[i].key := changes[i]];
    }
    assert changes[..|changes|] == changes;
  }

  // ---------------------------------------------------------------- the two passes

  predicate IsDelete(c: Change) {
    c.action == Delete
  }

  function Deletes(m: map<Key, Change>): set<Key> {
    set k | k in m && IsDelete(m[k])
  }

  /** The keys of the plan: everything but the deletes forwards, then the deletes backwards. */
  function PlanKeys(order: seq<Key>, m: map<Key, Change>): (keys: seq<Key>)
    ensures forall k :: k in keys ==> k in m
  {
    Keep(order, m.Keys - Deletes(m)) + Reversed(Keep(order, Deletes(m)))
  }

  function Plan(order: seq<Key>, m: map<Key, Change>): seq<Change> {
    Entries(PlanKeys(order, m), m)
  }

  method OrderChanges(order: seq<Key>, m: map<Key, Change>) returns (ordered: seq<Change>)
    ensures ordered == Plan(order, m)
  {
    var deletes := Deletes(m);
    var front := SelectForward(order, m.Keys - deletes, m);
    var back := SelectBackward(order, deletes, m);
    ordered := front + back;
  }

  lemma NothingReachable(g: Graph)
    requires g.Declared() == {}
    ensures ExecutionOrder(g, []) && !HasReachableCycle(g)
  {
  }

  // ---------------------------------------------------------------- what the plan guarantees

  lemma PassesSeparate(order: seq<Key>, m: map<Key, Change>, i: nat)
    requires i < |Plan(order, m)|
    ensures IsDelete(Plan(order, m)[i]) <==> i >= |Keep(order, m.Keys - Deletes(m))|
  {
    assert PlanKeys(order, m)[i] in if i < |Keep(order, m.Keys - Deletes(m))|
                                    then m.Keys - Deletes(m) else Deletes(m);
  }

  /**
   For any two changes of a plan of which the first depends on the second, directly or through
   nodes that are filtered out or dangling: two non-deletes run dependency first, two deletes run
   dependent first; and every non-delete runs before every delete.
   */
  ghost predicate PairOrdered(g: Graph, plan: seq<Change>, i: nat, j: nat)
    requires i < |plan| && j < |plan|
  {
    && (!IsDelete(plan[i]) && IsDelete(plan[j]) ==> i < j)
    && (DependsOn(g, plan[i].key, plan[j].key) && !IsDelete(plan[i]) && !IsDelete(plan[j]) ==> j < i)
    && (DependsOn(g, plan[i].key, plan[j].key) && IsDelete(plan[i]) && IsDelete(plan[j]) ==> i < j)
  }

  lemma PlanOrdered(g: Graph, order: seq<Key>, m: map<Key, Change>, i: nat, j: nat)
    requires DependenciesFirst(g, order) && (forall k :: k in m ==> m[k].key == k)
    requires i < |Plan(order, m)| && j < |Plan(order, m)|
    ensures PairOrdered(g, Plan(order, m), i, j)
  {
    var front, back := Keep(order, m.Keys - Deletes(m)), Keep(order, Deletes(m));
    var keys, n := PlanKeys(order, m), |front|;
    PassesSeparate(order, m, i);
    PassesSeparate(order, m, j);
    if DependsOn(g, keys[i], keys[j]) {
      if i < n && j < n {
        KeepOrdered(g, order, m.Keys - Deletes(m), i, j);
      } else if i >= n && j >= n {
        var i', j' := |back| - 1 - (i - n), |back| - 1 - (j - n);
        assert keys[i] == back[i'] && keys[j] == back[j'];
        KeepOrdered(g, order, Deletes(m), i', j');
      }
    }
  }

  // ---------------------------------------------------------------- what the plan contains

  lemma {:induction false} MentionedIsDotted(v: Value, key: Key)
    requires Mentions(v, key)
    ensures Dotted(key)
  {
    match v {
      case Text(s) => MentionHasDot(s, key);
      case Object(fields) =>
        var f :| f in fields && Mentions(fields[f], key);
        MentionedIsDotted(fields[f], key);
      case List(items) =>
        var i :| 0 <= i < |items| && Mentions(items[i], key);
        MentionedIsDotted(items[i], key);
    }
  }

  lemma {:induction false} ConvertedIsDotted(changes: seq<Change>, key: Key, r: Resource)
    requires LastWithKey(Converted(changes), ResourceKey, key, r)
    ensures Dotted(key)
  {
    var rs := Converted(changes);
    if changes != [] {
      var init := changes[..|changes| - 1];
      if Dotted(changes[|changes| - 1].key) {
        assert rs[..|rs| - 1] == Converted(init);
        if ResourceKey(rs[|rs| - 1]) != key { ConvertedIsDotted(init, key, r); }
      } else {
        ConvertedIsDotted(init, key, r);
      }
    }
  }

  lemma {:induction false} ConvertedHolds(changes: seq<Change>, c: Change)
    requires c in changes && Dotted(c.key)
    ensures AsResource(c) in Converted(changes)
  {
    var init, last := changes[..|changes| - 1], changes[|changes| - 1];
    assert changes == init + [last];
    if c != last { ConvertedHolds(init, c); }
  }

  /** Every node that can be reached has a dotted key: no dotless change is ever in the order. */
  lemma ReachableIsDotted(g: Graph, changes: seq<Change>, k: Key)
    requires GraphOf(Converted(changes), [], g) && Reachable(g, k)
    ensures Dotted(k)
  {
    var w :| Walk(g, w) && w[0] in g.Declared() && w[|w| - 1] == k;
    if |w| == 1 {
      DeclaredIsDotted(g, changes, k);
    } else {
      var from := w[|w| - 2];
      assert from in g.dependencies && from in g.resources;
      MentionedIsDotted(Object(g.resources[from].properties), k);
    }
  }

  lemma DeclaredIsDotted(g: Graph, changes: seq<Change>, k: Key)
    requires GraphOf(Converted(changes), [], g) && k in g.Declared()
    ensures k in g.resources && Dotted(k)
  {
    assert forall d :: d in g.dataSources ==> LastWithKey([], DataSourceKey, d, g.dataSources[d]);
    ConvertedIsDotted(changes, k, g.resources[k]);
  }

  lemma {:induction false} LastChangeIsOne(changes: seq<Change>, key: Key, c: Change)
    requires LastChange(changes, key, c)
    ensures c in changes && c.key == key
  {
    var init, last := changes[..|changes| - 1], changes[|changes| - 1];
    assert changes == init + [last];
    if last.key != key { LastChangeIsOne(init, key, c); }
  }

  lemma ChangeMapKeyed(changes: seq<Change>, m: map<Key, Change>)
    requires ChangeMap(changes, m)
    ensures forall k :: k in m ==> m[k].key == k && m[k] in changes
  {
    forall k | k in m ensures m[k].key == k && m[k] in changes {
      LastChangeIsOne(changes, k, m[k]);
    }
  }

  lemma PlanKeysHold(order: seq<Key>, m: map<Key, Change>, k: Key)
    ensures k in PlanKeys(order, m) <==> k in order && k in m
  {
    KeepHolds(order, m.Keys - Deletes(m), k);
    KeepHolds(order, Deletes(m), k);
    ReversedHolds(Keep(order, Deletes(m)), k);
  }

  /** The plan holds, for every dotted key of the request, the last change with that key. */
  lemma PlanContents(g: Graph, changes: seq<Change>, order: seq<Key>, m: map<Key, Change>, c: Change)
    requires GraphOf(Converted(changes), [], g) && ExecutionOrder(g, order) && ChangeMap(changes, m)
    ensures c in Plan(order, m) <==> Dotted(c.key) && LastChange(changes, c.key, c)
  {
    var keys, plan := PlanKeys(order, m), Plan(order, m);
    ChangeMapKeyed(changes, m);
    PlanKeysHold(order, m, c.key);
    if c in plan {
      var i :| 0 <= i < |plan| && plan[i] == c;
      assert keys[i] in keys && m[keys[i]] == c;
      ReachableIsDotted(g, changes, c.key);
    }
    if Dotted(c.key) && LastChange(changes, c.key, c) {
      LastChangeIsOne(changes, c.key, c);
      ConvertedHolds(changes, c);
      assert ResourceKey(AsResource(c)) in g.resources;
      DeclaredReachable(g, c.key);
      LastChangeUnique(changes, c.key, c, m[c.key]);
      var i :| 0 <= i < |keys| && keys[i] == c.key;
      assert plan[i] == c;
    }
  }

  lemma {:induction false} LastChangeUnique(changes: seq<Change>, key: Key, a: Change, b: Change)
    requires LastChange(changes, key, a) && LastChange(changes, key, b)
    ensures a == b
  {
    if changes[|changes| - 1].key != key { LastChangeUnique(changes[..|changes| - 1], key, a, b); }
  }

  ghost predicate KeysDistinct(changes: seq<Change>) {
    forall i, j :: 0 <= i < j < |changes| ==> changes[i].key != changes[j].key
  }

  lemma PlanKeysDistinct(g: Graph, order: seq<Key>, m: map<Key, Change>)
    requires DependenciesFirst(g, order) && (forall k :: k in m ==> m[k].key == k)
    ensures KeysDistinct(Plan(order, m))
  {
    var front, back := Keep(order, m.Keys - Deletes(m)), Keep(order, Deletes(m));
    KeepDistinct(g, order, m.Keys - Deletes(m));
    KeepDistinct(g, order, Deletes(m));
    ReversedDistinct(back);
    var keys := PlanKeys(order, m);
    forall i, j | 0 <= i < j < |keys| ensures keys[i] != keys[j] {
      if i < |front| <= j {
        assert front[i] in m.Keys - Deletes(m) && Reversed(back)[j - |front|] in Deletes(m);
      }
    }
  }

  /**
   The plan is a permutation of the requested changes if and only if every key has a dot and no two
   changes share a key; otherwise changes are silently dropped.
   */
  lemma PlanIsPermutation(g: Graph, changes: seq<Change>, order: seq<Key>, m: map<Key, Change>)
    requires GraphOf(Converted(changes), [], g) && ExecutionOrder(g, order) && ChangeMap(changes, m)
    ensures multiset(Plan(order, m)) == multiset(changes) <==>
            KeysDistinct(changes) && AllDotted(changes)
  {
    var plan := Plan(order, m);
    ChangeMapKeyed(changes, m);
    PlanKeysDistinct(g, order, m);
    if KeysDistinct(changes) && AllDotted(changes) {
      forall c ensures c in plan <==> c in changes {
        PlanContents(g, changes, order, m, c);
        DistinctIsLast(changes, c);
      }
      DistinctPermutation(plan, changes);
    }
    if multiset(plan) == multiset(changes) {
      PermutationKeysDistinct(plan, changes);
      forall c | c in changes ensures Dotted(c.key) {
        assert c in multiset(changes);
        PlanContents(g, changes, order, m, c);
      }
    }
  }

  lemma {:induction false} DistinctIsLast(changes: seq<Change>, c: Change)
    requires KeysDistinct(changes)
    ensures LastChange(changes, c.key, c) <==> c in changes
  {
    if changes != [] {
      var init, last := changes[..|changes| - 1], changes[|changes| - 1];
      assert changes == init + [last];
      DistinctIsLast(init, c);
      if c in init {
        var i :| 0 <= i < |init| && init[i] == c;
        assert changes[i].key != last.key;
      }
    }
  }

  lemma PermutationKeysDistinct(a: seq<Change>, b: seq<Change>)
    requires KeysDistinct(a) && multiset(a) == multiset(b)
    ensures KeysDistinct(b)
  {
    forall i, j | 0 <= i < j < |b| ensures b[i].key != b[j].key {
      if b[i] == b[j] {
        TwiceCounted(b, i, j);
        DistinctCount(a, b[i]);
      } else {
        assert b[i] in multiset(a) && b[j] in multiset(a);
        var p :| 0 <= p < |a| && a[p] == b[i];
        var q :| 0 <= q < |a| && a[q] == b[j];
      }
    }
  }

  lemma TwiceCounted(b: seq<Change>, i: nat, j: nat)
    requires i < j < |b| && b[i] == b[j]
    ensures multiset(b)[b[i]] >= 2
  {
    assert b == b[..i] + [b[i]] + b[i + 1..j] + [b[j]] + b[j + 1..];
  }

  // ---------------------------------------------------------------- read off the changes themselves

  /** The property map is there and one of its strings refers to the key. */
  ghost predicate Refers(side: Option<map<string, Value>>, key: Key) {
    side.Some? && Mentions(Object(side.value), key)
  }

  /** The change depends on the key: what it will be if it stays, what it was if it goes. */
  ghost predicate Reads(c: Change, key: Key) {
    || (c.action in {Create, Update, Replace} && Refers(c.after, key))
    || (c.action == Delete && Refers(c.before, key))
    || (c.action == NoOp && (Refers(c.after, key) || (c.after.None? && Refers(c.before, key))))
  }

  /** The change that stands for key `a` is read and depends on `b`. */
  ghost predicate KeyReads(changes: seq<Change>, a: Key, b: Key) {
    Dotted(a) && exists c :: LastChange(changes, a, c) && Reads(c, b)
  }

  /** Each key's change depends on the next key. */
  ghost predicate Chain(changes: seq<Change>, w: seq<Key>) {
    && w != []
    && (|w| > 1 ==> Chain(changes, w[..|w| - 1]) && KeyReads(changes, w[|w| - 2], w[|w| - 1]))
  }

  ghost predicate Ring(changes: seq<Change>, w: seq<Key>) {
    |w| > 1 && Chain(changes, w) && w[0] == w[|w| - 1]
  }

  /** a depends on b through a chain of changes; keys on the way need not be in the plan. */
  ghost predicate ReadsThrough(changes: seq<Change>, a: Key, b: Key) {
    exists w :: ChainBetween(changes, w, a, b)
  }

  ghost predicate ChainBetween(changes: seq<Change>, w: seq<Key>, a: Key, b: Key) {
    |w| > 1 && Chain(changes, w) && w[0] == a && w[|w| - 1] == b
  }

  lemma {:induction false} ConvertedLast(changes: seq<Change>, key: Key, r: Resource) returns (c: Change)
    requires LastWithKey(Converted(changes), ResourceKey, key, r)
    ensures Dotted(key) && c.key == key && LastChange(changes, key, c) && r == AsResource(c)
  {
    var rs, init := Converted(changes), changes[..|changes| - 1];
    c := changes[|changes| - 1];
    if Dotted(c.key) {
      assert rs[..|rs| - 1] == Converted(init);
      if c.key != key { c := ConvertedLast(init, key, r); }
    } else {
      ConvertedIsDotted(init, key, r);
      c := ConvertedLast(init, key, r);
    }
  }

  lemma ReadsItsProperties(c: Change, key: Key)
    ensures Reads(c, key) <==> Mentions(Object(PropertiesFor(c)), key)
  {
  }

  lemma ReadIsDeclared(g: Graph, changes: seq<Change>, a: Key, b: Key)
    requires GraphOf(Converted(changes), [], g) && KeyReads(changes, a, b)
    ensures a in g.resources
  {
    var c :| LastChange(changes, a, c) && Reads(c, b);
    LastChangeIsOne(changes, a, c);
    ConvertedHolds(changes, c);
    assert ResourceKey(AsResource(c)) == a;
  }

  /** The graph's edges are what the changes say. */
  lemma EdgesAreReads(g: Graph, changes: seq<Change>, a: Key, b: Key)
    requires GraphOf(Converted(changes), [], g)
    ensures b in g.Deps(a) <==> KeyReads(changes, a, b)
  {
    if KeyReads(changes, a, b) {
      ReadIsDeclared(g, changes, a, b);
    }
    if a in g.Declared() {
      DeclaredIsDotted(g, changes, a);
      assert forall d :: d in g.dataSources ==> LastWithKey([], DataSourceKey, d, g.dataSources[d]);
      var c := ConvertedLast(changes, a, g.resources[a]);
      ReadsItsProperties(c, b);
      if KeyReads(changes, a, b) {
        var c' :| LastChange(changes, a, c') && Reads(c', b);
        LastChangeUnique(changes, a, c, c');
      }
    }
  }

  lemma {:induction false} WalksAreChains(g: Graph, changes: seq<Change>, w: seq<Key>)
    requires GraphOf(Converted(changes), [], g)
    ensures Walk(g, w) <==> Chain(changes, w)
  {
    if |w| > 1 {
      WalksAreChains(g, changes, w[..|w| - 1]);
      EdgesAreReads(g, changes, w[|w| - 2], w[|w| - 1]);
    }
  }

  lemma DependsOnIsReading(g: Graph, changes: seq<Change>, a: Key, b: Key)
    requires GraphOf(Converted(changes), [], g)
    ensures DependsOn(g, a, b) <==> ReadsThrough(changes, a, b)
  {
    if DependsOn(g, a, b) {
      var w :| |w| > 1 && WalkBetween(g, w, a, b);
      WalksAreChains(g, changes, w);
      assert ChainBetween(changes, w, a, b);
    }
    if ReadsThrough(changes, a, b) {
      var w :| ChainBetween(changes, w, a, b);
      WalksAreChains(g, changes, w);
      assert WalkBetween(g, w, a, b);
    }
  }

  lemma {:induction false} ChainStartsDeclared(g: Graph, changes: seq<Change>, w: seq<Key>)
    requires GraphOf(Converted(changes), [], g) && Walk(g, w) && |w| > 1
    ensures w[0] in g.Declared()
  {
    if |w| > 2 {
      ChainStartsDeclared(g, changes, w[..|w| - 1]);
    }
  }

  lemma CyclesAreRings(g: Graph, changes: seq<Change>)
    requires GraphOf(Converted(changes), [], g)
    ensures HasReachableCycle(g) <==> exists w :: Ring(changes, w)
  {
    if HasReachableCycle(g) {
      var c :| ReachableCycle(g, c);
      WalksAreChains(g, changes, c);
      assert Ring(changes, c);
    }
    if w :| Ring(changes, w) {
      WalksAreChains(g, changes, w);
      ChainStartsDeclared(g, changes, w);
      DeclaredReachable(g, w[0]);
      assert ReachableCycle(g, w);
    }
  }

  /** In which order two changes of a plan stand, by what the changes themselves refer to. */
  ghost predicate PairFollowsReferences(changes: seq<Change>, plan: seq<Change>, i: nat, j: nat)
    requires i < |plan| && j < |plan|
  {
    var c, d := plan[i], plan[j];
    && (c.action != Delete && d.action == Delete ==> i < j)
    && (c.action in {Create, Update, Replace} && Refers(c.after, d.key) && d.action != Delete ==> j < i)
    && (c.action == NoOp && c.after.Some? && Refers(c.after, d.key) && d.action != Delete ==> j < i)
    && (c.action == NoOp && c.after.None? && Refers(c.before, d.key) && d.action != Delete ==> j < i)
    && (c.action == Delete && Refers(c.before, d.key) && d.action == Delete ==> i < j)
    && (c.action != Delete && d.action != Delete && ReadsThrough(changes, c.key, d.key) ==> j < i)
    && (c.action == Delete && d.action == Delete && ReadsThrough(changes, c.key, d.key) ==> i < j)
  }

  lemma PairFollows(g: Graph, changes: seq<Change>, plan: seq<Change>, i: nat, j: nat)
    requires GraphOf(Converted(changes), [], g) && CorrectPlan(g, changes, plan) && i < |plan| && j < |plan|
    ensures PairFollowsReferences(changes, plan, i, j)
  {
    var c, d := plan[i], plan[j];
    assert c in plan && PairOrdered(g, plan, i, j);
    DependsOnIsReading(g, changes, c.key, d.key);
    if Reads(c, d.key) {
      var w := [c.key, d.key];
      assert w[..1] == [c.key] && KeyReads(changes, c.key, d.key);
      assert ChainBetween(changes, w, c.key, d.key);
    }
  }

  // ---------------------------------------------------------------- the calculator

  /**
   CalculateExecutionOrder. An error exactly if the changes refer to each other in a ring; otherwise the plan follows
   their references. The outcome is right for every graph of the changes.
   */
  method CalculateExecutionOrder(changes: seq<Change>)
    returns (r: Result<seq<Change>, OrderError>, ghost g: Graph)
    ensures r.Err? <==> exists w :: Ring(changes, w)
    ensures r.Ok? ==> forall i, j :: 0 <= i < |r.value| && 0 <= j < |r.value| ==>
              PairFollowsReferences(changes, r.value, i, j)
    ensures forall h :: GraphOf(Converted(changes), [], h) ==> RightOutcome(h, changes, r)
    ensures GraphOf(Converted(changes), [], g) && RightOutcome(g, changes, r)
  {
    r, g := Calculate(changes);
    CyclesAreRings(g, changes);
    if r.Ok? {
      forall i, j | 0 <= i < |r.value| && 0 <= j < |r.value| ensures PairFollowsReferences(changes, r.value, i, j) {
        PairFollows(g, changes, r.value, i, j);
      }
    }
    forall h | GraphOf(Converted(changes), [], h) ensures RightOutcome(h, changes, r) {
      GraphUnique(Converted(changes), [], g, h);
      SameOutcome(g, h, changes, r);
    }
  }

  /** An error exactly on a reachable cycle, otherwise a correct plan. */
  ghost predicate RightOutcome(g: Graph, changes: seq<Change>, r: Result<seq<Change>, OrderError>) {
    (r.Err? <==> HasReachableCycle(g)) && (r.Ok? ==> CorrectPlan(g, changes, r.value))
  }

  lemma SameOutcome(g: Graph, h: Graph, changes: seq<Change>, r: Result<seq<Change>, OrderError>)
    requires SameEdges(g, h) && RightOutcome(g, changes, r)
    ensures RightOutcome(h, changes, r)
  {
    if HasReachableCycle(g) { SameCycles(g, h); }
    if HasReachableCycle(h) { SameCycles(h, g); }
    if r.Ok? {
      forall i: nat, j: nat | i < |r.value| && j < |r.value| ensures PairOrdered(h, r.value, i, j) {
        assert PairOrdered(g, r.value, i, j);
        if DependsOn(h, r.value[i].key, r.value[j].key) {
          SameDependsOn(h, g, r.value[i].key, r.value[j].key);
        }
      }
    }
  }

  /** The calculation itself, with the graph it builds. */
  method Calculate(changes: seq<Change>) returns (r: Result<seq<Change>, OrderError>, ghost g: Graph)
    ensures GraphOf(Converted(changes), [], g) && RightOutcome(g, changes, r)
  {
    if |changes| == 0 {
      g := Graph(map[], map[], map[], map[]);
      NothingReachable(g);
      PlanCorrect(g, changes, [], map[]);
      return Ok(changes), g;
    }
    var resources := ConvertChangesToResources(changes);
    var graph := BuildDependencyGraph(resources, []);
    g := graph;
    var cycle := ValidateNoCycles(graph);
    if cycle.Some? {
      return Err(CycleFound(cycle.value)), g;
    }
    var execution := GetExecutionOrder(graph);
    if execution.Err? {
      assert false; // the graph has just passed the same check
    }
    var changeMap := BuildChangeMap(changes);
    var ordered := OrderChanges(execution.value, changeMap);
    PlanCorrect(g, changes, execution.value, changeMap);
    return Ok(ordered), g;
  }

  /** Ordered pairwise; the last change of each dotted key and nothing else; a permutation exactly when it can be. */
  ghost predicate CorrectPlan(g: Graph, changes: seq<Change>, plan: seq<Change>) {
    && (forall i, j :: 0 <= i < |plan| && 0 <= j < |plan| ==> PairOrdered(g, plan, i, j))
    && KeysDistinct(plan)
    && (forall c :: c in plan <==> Dotted(c.key) && LastChange(changes, c.key, c))
    && (multiset(plan) == multiset(changes) <==> KeysDistinct(changes) && AllDotted(changes))
  }

  ghost predicate AllDotted(changes: seq<Change>) {
    forall c :: c in changes ==> Dotted(c.key)
  }

  lemma PlanCorrect(g: Graph, changes: seq<Change>, order: seq<Key>, m: map<Key, Change>)
    requires GraphOf(Converted(changes), [], g) && ExecutionOrder(g, order) && ChangeMap(changes, m)
    ensures CorrectPlan(g, changes, Plan(order, m))
  {
    var plan := Plan(order, m);
    ChangeMapKeyed(changes, m);
    forall i, j | 0 <= i < |plan| && 0 <= j < |plan| ensures PairOrdered(g, plan, i, j) {
      PlanOrdered(g, order, m, i, j);
    }
    PlanKeysDistinct(g, order, m);
    forall c ensures c in plan <==> Dotted(c.key) && LastChange(changes, c.key, c) {
      PlanContents(g, changes, order, m, c);
    }
    PlanIsPermutation(g, changes, order, m);
  }
}
