/** Filtering an execution order by a lookup table, as every consumer of the resolver does. */
module OrderFilter {
  import opened Wrappers
  import opened Interpolation
  import opened DependencyGraph

  /** The members of `keys`, in the order's sequence. */
  function Keep(order: seq<Key>, keys: set<Key>): (kept: seq<Key>)
    ensures forall k :: k in kept ==> k in keys
  {
    if order == [] then []
    else
      var init, last := Keep(order[..|order| - 1], keys), order[|order| - 1];
      if last in keys then init + [last] else init
  }

  function Reversed<T>(s: seq<T>): (r: seq<T>)
    ensures |r| == |s|
    ensures forall i :: 0 <= i < |s| ==> r[i] == s[|s| - 1 - i]
    ensures forall x :: x in r ==> x in s
  {
    seq(|s|, i requires 0 <= i < |s| => s[|s| - 1 - i])
  }

  /** The table's entries for a sequence of its keys. */
  function Entries<T>(keys: seq<Key>, table: map<Key, T>): (r: seq<T>)
    requires forall k :: k in keys ==> k in table
    ensures |r| == |keys| && forall i :: 0 <= i < |keys| ==> r[i] == table[keys[i]]
  {
    seq(|keys|, i requires 0 <= i < |keys| => table[keys[i]])
  }

  lemma {:induction false} KeepHolds(order: seq<Key>, keys: set<Key>, k: Key)
    ensures k in Keep(order, keys) <==> k in order && k in keys
  {
    if order != [] {
      var init, last := order[..|order| - 1], order[|order| - 1];
      assert order == init + [last];
      KeepHolds(init, keys, k);
    }
  }

  lemma {:induction false} KeepDistinct(g: Graph, order: seq<Key>, keys: set<Key>)
    requires DependenciesFirst(g, order)
    ensures Distinct(Keep(order, keys))
  {
    if order != [] {
      var init, last := order[..|order| - 1], order[|order| - 1];
      KeepDistinct(g, init, keys);
      KeepHolds(init, keys, last);
    }
  }

  /** What a kept key depends on, directly or through keys that were dropped, is kept before it. */
  lemma {:induction false} KeepOrdered(g: Graph, order: seq<Key>, keys: set<Key>, i: nat, j: nat)
    requires DependenciesFirst(g, order)
    requires i < |Keep(order, keys)| && j < |Keep(order, keys)|
    requires DependsOn(g, Keep(order, keys)[i], Keep(order, keys)[j])
    ensures j < i
  {
    var init, last := order[..|order| - 1], order[|order| - 1];
    var kept, sofar := Keep(order, keys), Keep(init, keys);
    if i < |sofar| && j < |sofar| {
      KeepOrdered(g, init, keys, i, j);
    } else if i < |sofar| {
      KeepHolds(init, keys, kept[i]);
      var p :| 0 <= p < |init| && init[p] == kept[i];
      assert order[p] == init[p];
      DependencyStandsBefore(g, order, order[p], last, p);
    } else if i == j {
      DependencyStandsBefore(g, order, last, last, |order| - 1);
    }
  }

  lemma KeepOrderedBack(g: Graph, order: seq<Key>, keys: set<Key>, i: nat, j: nat)
    requires DependenciesFirst(g, order)
    requires i < |Keep(order, keys)| && j < |Keep(order, keys)|
    requires DependsOn(g, Reversed(Keep(order, keys))[i], Reversed(Keep(order, keys))[j])
    ensures i < j
  {
    var n := |Keep(order, keys)|;
    KeepOrdered(g, order, keys, n - 1 - i, n - 1 - j);
  }

  lemma ReversedHolds<T>(s: seq<T>, x: T)
    ensures x in Reversed(s) <==> x in s
  {
    if x in s {
      var i :| 0 <= i < |s| && s[i] == x;
      assert Reversed(s)[|s| - 1 - i] == x;
    }
  }

  lemma ReversedDistinct<T>(s: seq<T>)
    requires Distinct(s)
    ensures Distinct(Reversed(s))
  {
  }

  /** The forward lookup loop: entries of the order's keys that the table has. */
  method SelectForward<T>(order: seq<Key>, keys: set<Key>, table: map<Key, T>) returns (r: seq<T>)
    requires keys <= table.Keys
    ensures r == Entries(Keep(order, keys), table)
  {
    r := [];
    for i := 0 to |order|
      invariant r == Entries(Keep(order[..i], keys), table)
    {
      assert order[..i + 1][..i] == order[..i];
      if order[i] in keys {
        r := r + [table[order[i]]];
      }
    }
    assert order[..|order|] == order;
  }

  /** What the backward loop still has to add when it stands at position i. */
  ghost function Ahead<T>(order: seq<Key>, i: nat, keys: set<Key>, table: map<Key, T>): seq<T>
    requires keys <= table.Keys && i <= |order|
  {
    Entries(Reversed(Keep(order[..i], keys)), table)
  }

  lemma BackwardStep<T>(order: seq<Key>, i: nat, keys: set<Key>, table: map<Key, T>)
    requires keys <= table.Keys && i < |order|
    ensures var rest := Ahead(order, i, keys, table);
            Ahead(order, i + 1, keys, table) == if order[i] in keys then [table[order[i]]] + rest else rest
  {
    assert order[..i + 1][..i] == order[..i];
  }

  lemma BackwardEnds<T>(order: seq<Key>, keys: set<Key>, table: map<Key, T>)
    requires keys <= table.Keys
    ensures Ahead(order, |order|, keys, table) == Entries(Reversed(Keep(order, keys)), table)
    ensures Ahead(order, 0, keys, table) == []
  {
    assert order[..|order|] == order;
  }

  lemma Regroup<T>(r: seq<T>, x: T, rest: seq<T>)
    ensures r + ([x] + rest) == r + [x] + rest
  {
  }

  /** The backward lookup loop: the same entries, last first. */
  method SelectBackward<T>(order: seq<Key>, keys: set<Key>, table: map<Key, T>) returns (r: seq<T>)
    requires keys <= table.Keys
    ensures r == Entries(Reversed(Keep(order, keys)), table)
  {
    r := [];
    var i := |order|;
    ghost var all := Ahead(order, i, keys, table);
    BackwardEnds(order, keys, table);
    while i > 0
      invariant 0 <= i <= |order|
      invariant r + Ahead(order, i, keys, table) == all
    {
      i := i - 1;
      BackwardStep(order, i, keys, table);
      if order[i] in keys {
        Regroup(r, table[order[i]], Ahead(order, i, keys, table));
        r := r + [table[order[i]]];
      }
    }
  }
}
