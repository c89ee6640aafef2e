/**
 * The LINQ pipeline `Where`, `Distinct`, `OrderBy` over integer sequences,
 * each as a function whose contract says what the operator yields.
 */
module Sequences {
  import opened Catalog

  predicate Ascending(s: seq<int>)
  {
    forall i, j :: 0 <= i < j < |s| ==> s[i] <= s[j]
  }

  predicate StrictlyAscending(s: seq<int>)
  {
    forall i, j :: 0 <= i < j < |s| ==> s[i] < s[j]
  }

  /** `Where(x => lo <= x && x <= hi)`: the in-range elements. (The order they keep
      is not stated: the window sorts them afterwards.) */
  function KeepInRange(xs: seq<int>, lo: int, hi: int): (r: seq<int>)
    ensures |r| <= |xs|
    ensures forall x :: x in r <==> x in xs && lo <= x <= hi
  {
    if xs == [] then []
    else (if lo <= xs[0] <= hi then [xs[0]] else []) + KeepInRange(xs[1..], lo, hi)
  }

  /** `Distinct()`: one occurrence of each element. (Which occurrence, and in what
      order, is not stated: the window sorts them afterwards.) */
  function Distinct(xs: seq<int>): (r: seq<int>)
    ensures |r| <= |xs|
    ensures NoDuplicates(r)
    ensures forall x :: x in r <==> x in xs
  {
    if xs == [] then []
    else
      var front, last := xs[..|xs| - 1], xs[|xs| - 1];
      assert xs == front + [last];
      var rest := Distinct(front);
      if last in rest then rest else rest + [last]
  }

  /** The head of an ascending sequence is below everything after it. */
  lemma HeadIsLeast(s: seq<int>)
    requires Ascending(s) && s != []
    ensures forall y :: y in s[1..] ==> s[0] <= y
    ensures StrictlyAscending(s) ==> forall y :: y in s[1..] ==> s[0] < y
  {
  }

  /** Inserts `x` into an ascending sequence before the first element not below it. */
  function Insert(x: int, s: seq<int>): (r: seq<int>)
    requires Ascending(s)
    ensures Ascending(r)
    ensures multiset(r) == multiset(s) + multiset{x}
    ensures StrictlyAscending(s) && x !in s ==> StrictlyAscending(r)
  {
    if s == [] || x <= s[0] then [x] + s
    else
      var tail := Insert(x, s[1..]);
      InsertAfterHead(x, s, tail);
      [s[0]] + tail
  }

  /** The step of `Insert` that puts the head back in front of the insertion into the rest. */
  lemma InsertAfterHead(x: int, s: seq<int>, tail: seq<int>)
    requires Ascending(s) && s != [] && s[0] < x
    requires Ascending(tail) && multiset(tail) == multiset(s[1..]) + multiset{x}
    requires StrictlyAscending(s) && x !in s ==> StrictlyAscending(tail)
    ensures Ascending([s[0]] + tail)
    ensures multiset([s[0]] + tail) == multiset(s) + multiset{x}
    ensures StrictlyAscending(s) && x !in s ==> StrictlyAscending([s[0]] + tail)
  {
    assert s == [s[0]] + s[1..];
    HeadIsLeast(s);
    var r := [s[0]] + tail;
    forall j | 0 < j < |r| ensures s[0] <= r[j] && (StrictlyAscending(s) ==> s[0] < r[j]) {
      assert r[j] == tail[j - 1];
      assert tail[j - 1] in multiset(tail);
    }
  }

  /** `OrderBy(x => x)`: an ascending permutation of `xs`. */
  function SortAscending(xs: seq<int>): (r: seq<int>)
    ensures Ascending(r)
    ensures multiset(r) == multiset(xs)
    ensures NoDuplicates(xs) ==> StrictlyAscending(r)
  {
    if xs == [] then []
    else
      assert xs == [xs[0]] + xs[1..];
      var rest := SortAscending(xs[1..]);
      assert NoDuplicates(xs) ==> xs[0] !in multiset(rest);
      Insert(xs[0], rest)
  }

  /** A strictly ascending sequence is determined by its elements: two of them
      holding the same elements are equal. */
  lemma {:induction false} StrictlyAscendingDeterminedByElements(a: seq<int>, b: seq<int>)
    requires StrictlyAscending(a) && StrictlyAscending(b)
    requires forall x :: x in a <==> x in b
    ensures a == b
  {
    if a != [] {
      assert a[0] in a;
    }
    if b != [] {
      assert b[0] in b;
    }
    if a != [] {
      assert a[0] in b && b[0] in a;
      assert a[0] == b[0];
      forall x ensures x in a[1..] <==> x in b[1..] {
        if x in a[1..] {
          assert x in b && x != b[0];
        }
        if x in b[1..] {
          assert x in a && x != a[0];
        }
      }
      StrictlyAscendingDeterminedByElements(a[1..], b[1..]);
      assert a == [a[0]] + a[1..] && b == [b[0]] + b[1..];
    }
  }
}
