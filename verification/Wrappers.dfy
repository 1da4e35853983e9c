/** Failure-carrying results shared by the component models. */
module Wrappers {

  datatype Option<+T> = None | Some(value: T)

  datatype Result<+T, +E> = Ok(value: T) | Err(error: E)

  /** No element occurs twice. */
  ghost predicate Distinct<T>(s: seq<T>) {
    forall i, j :: 0 <= i < j < |s| ==> s[i] != s[j]
  }

  /** The elements of a sequence, as a set. */
  function Elements<T>(s: seq<T>): set<T> {
    set x | x in s
  }

  /** A sequence without repetitions is as long as the set of its elements. */
  lemma {:induction false} DistinctSize<T>(s: seq<T>)
    requires Distinct(s)
    ensures |Elements(s)| == |s|
  {
    if s != [] {
      var init, last := s[..|s| - 1], s[|s| - 1];
      DistinctSize(init);
      assert Elements(s) == Elements(init) + {last};
    }
  }

  /** Two repetition-free sequences over the same elements are permutations of each other. */
  lemma {:induction false} DistinctPermutation<T>(a: seq<T>, b: seq<T>)
    requires Distinct(a) && Distinct(b)
    requires forall x :: x in a <==> x in b
    ensures multiset(a) == multiset(b)
  {
    forall x ensures multiset(a)[x] == multiset(b)[x] {
      DistinctCount(a, x);
      DistinctCount(b, x);
    }
  }

  lemma {:induction false} DistinctCount<T>(s: seq<T>, x: T)
    requires Distinct(s)
    ensures multiset(s)[x] == if x in s then 1 else 0
  {
    if s != [] {
      var init, last := s[..|s| - 1], s[|s| - 1];
      assert s == init + [last];
      DistinctCount(init, x);
    }
  }

  lemma ElementsSnoc<T>(s: seq<T>, x: T)
    ensures Elements(s + [x]) == Elements(s) + {x}
  {
  }

  /** The first place of an element. */
  function FirstPlace<T(==)>(s: seq<T>, x: T): (i: nat)
    requires x in s
    ensures i < |s| && s[i] == x && x !in s[..i]
  {
    if s[0] == x then 0 else
      assert s[1..][..FirstPlace(s[1..], x)] == s[1..FirstPlace(s[1..], x) + 1];
      1 + FirstPlace(s[1..], x)
  }

  /** s without the elements that have occurred before. */
  function Deduplicated<T(==,!new)>(s: seq<T>): (r: seq<T>)
    ensures forall x :: x in r <==> x in s
  {
    if s == [] then []
    else
      var init, last := Deduplicated(s[..|s| - 1]), s[|s| - 1];
      assert s == s[..|s| - 1] + [last];
      if last in s[..|s| - 1] then init else init + [last]
  }

  lemma {:induction false} DeduplicatedDistinct<T(!new)>(s: seq<T>)
    ensures Distinct(Deduplicated(s))
  {
    if s != [] {
      DeduplicatedDistinct(s[..|s| - 1]);
    }
  }

  /** What is kept is in the order of its first places. */
  lemma {:induction false} DeduplicatedInOrder<T(!new)>(s: seq<T>, a: nat, b: nat)
    requires a < b < |Deduplicated(s)|
    ensures Deduplicated(s)[a] in s && Deduplicated(s)[b] in s
    ensures FirstPlace(s, Deduplicated(s)[a]) < FirstPlace(s, Deduplicated(s)[b])
  {
    var init, d := s[..|s| - 1], Deduplicated(s);
    var kept := Deduplicated(init);
    assert d[a] == kept[a] && d[a] in init;
    FirstPlaceInPrefix(s, |s| - 1, d[a]);
    if b < |kept| {
      assert d[b] == kept[b] && d[b] in init;
      FirstPlaceInPrefix(s, |s| - 1, d[b]);
      DeduplicatedInOrder(init, a, b);
    } else {
      assert d[b] == s[|s| - 1] && d[b] !in init;
      assert forall i :: 0 <= i < |s| - 1 ==> s[i] == init[i];
    }
  }

  lemma {:induction false} FirstPlaceInPrefix<T>(s: seq<T>, n: nat, x: T)
    requires n <= |s| && x in s[..n]
    ensures x in s && FirstPlace(s, x) == FirstPlace(s[..n], x)
  {
    if s[0] != x {
      assert s[..n][1..] == s[1..][..n - 1];
      FirstPlaceInPrefix(s[1..], n - 1, x);
    }
  }
}
