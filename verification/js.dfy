/** The few JavaScript built-ins the game relies on, as pure functions over
    sequences: `Array.isArray`, `filter`, `indexOf`, `splice(i, 1)` and
    `Math.floor(Math.random() * n)`. */
module Js {
  import opened Wrappers

  /** An argument that may or may not be an array, as `Array.isArray` sees it. */
  datatype ArrayArg<T> = Array(items: seq<T>) | NotArray

  /** A value `Math.random()` can return: a real in [0, 1). */
  type Random = u: real | 0.0 <= u < 1.0

  /** A draw in [0, 1) scaled by `n` lands in [0, n). */
  lemma ScaledDrawBelow(u: Random, n: nat)
    requires n > 0
    ensures 0.0 <= u * (n as real) < n as real
  {
    var m := n as real;
    assert (1.0 - u) * m == m - u * m;
    assert 0.0 < (1.0 - u) * m;
    assert 0.0 <= u * m;
  }

  /** `Math.floor(u * n)`: the index a random draw `u` selects among `n` items. */
  function PickIndex(u: Random, n: nat): (k: nat)
    requires n > 0
    ensures k < n
    ensures k as real <= u * (n as real) < (k + 1) as real
  {
    ScaledDrawBelow(u, n);
    (u * (n as real)).Floor
  }

  /** Every index is chosen by some random draw. */
  lemma PickIndexReaches(k: nat, n: nat)
    requires k < n
    ensures var u := (k as real) / (n as real); 0.0 <= u < 1.0 && PickIndex(u, n) == k
  {
    var u := (k as real) / (n as real);
    assert u * (n as real) == k as real;
    assert u < 1.0;
  }

  /** No element occurs twice. */
  predicate Distinct<T(==)>(xs: seq<T>) {
    forall i, j :: 0 <= i < j < |xs| ==> xs[i] != xs[j]
  }

  /** `xs.filter(keep)`: the elements `keep` accepts, in their original order. */
  function Filter<T(==, !new)>(xs: seq<T>, keep: T -> bool): (r: seq<T>)
    ensures |r| <= |xs|
    ensures forall x :: x in r <==> x in xs && keep(x)
    ensures forall i :: 0 <= i < |r| ==> keep(r[i])
  {
    if |xs| == 0 then []
    else
      assert xs == xs[..|xs| - 1] + [xs[|xs| - 1]];
      Filter(xs[..|xs| - 1], keep) + (if keep(xs[|xs| - 1]) then [xs[|xs| - 1]] else [])
  }

  /** Filtering distributes over concatenation. */
  lemma {:induction false} FilterConcat<T(!new)>(a: seq<T>, b: seq<T>, keep: T -> bool)
    ensures Filter(a + b, keep) == Filter(a, keep) + Filter(b, keep)
    decreases |b|
  {
    if |b| == 0 {
      assert a + b == a;
    } else {
      var b' := b[..|b| - 1];
      assert (a + b)[..|a + b| - 1] == a + b';
      assert (a + b)[|a + b| - 1] == b[|b| - 1];
      FilterConcat(a, b', keep);
    }
  }

  /** A filter that keeps every element returns its input. */
  lemma {:induction false} FilterKeepsAll<T(!new)>(xs: seq<T>, keep: T -> bool)
    requires forall i :: 0 <= i < |xs| ==> keep(xs[i])
    ensures Filter(xs, keep) == xs
    decreases |xs|
  {
    if |xs| > 0 {
      assert xs == xs[..|xs| - 1] + [xs[|xs| - 1]];
      FilterKeepsAll(xs[..|xs| - 1], keep);
    }
  }

  /** A filter that keeps no element returns nothing. */
  lemma {:induction false} FilterKeepsNone<T(!new)>(xs: seq<T>, keep: T -> bool)
    requires forall i :: 0 <= i < |xs| ==> !keep(xs[i])
    ensures Filter(xs, keep) == []
    decreases |xs|
  {
    if |xs| > 0 {
      FilterKeepsNone(xs[..|xs| - 1], keep);
    }
  }

  /** The value of an option as a list of zero or one element. */
  function Present<T>(o: Option<T>): (r: seq<T>)
    ensures |r| == (if o.Some? then 1 else 0)
  {
    match o
    case None => []
    case Some(v) => [v]
  }

  /** The non-null elements of `xs`, in order: what `forEach(x => { if (x) push(x) })` collects. */
  function Compact<T(==, !new)>(xs: seq<Option<T>>): (r: seq<T>)
    ensures |r| <= |xs|
    ensures forall x :: x in r <==> Some(x) in xs
  {
    if |xs| == 0 then []
    else
      assert xs == xs[..|xs| - 1] + [xs[|xs| - 1]];
      Compact(xs[..|xs| - 1]) + Present(xs[|xs| - 1])
  }

  /** Compacting distributes over concatenation, drops `None` and keeps a `Some`:
      together these determine `Compact` on every input. */
  lemma {:induction false} CompactConcat<T(!new)>(a: seq<Option<T>>, b: seq<Option<T>>)
    ensures Compact(a + b) == Compact(a) + Compact(b)
    decreases |b|
  {
    if |b| == 0 {
      assert a + b == a;
    } else {
      var b' := b[..|b| - 1];
      assert (a + b)[..|a + b| - 1] == a + b';
      assert (a + b)[|a + b| - 1] == b[|b| - 1];
      CompactConcat(a, b');
    }
  }

  /** Removing behind a new first element removes from the rest. */
  lemma RemoveAtBehind<T>(x: T, xs: seq<T>, i: nat)
    requires i < |xs|
    ensures RemoveAt([x] + xs, i + 1) == [x] + RemoveAt(xs, i)
  {
  }

  /** Concatenation is associative. */
  lemma ConcatAssoc<T>(a: seq<T>, b: seq<T>, c: seq<T>)
    ensures a + (b + c) == (a + b) + c
  {
  }

  /** Compacting a list drops or keeps its first element, then compacts the rest. */
  lemma CompactCons<T(!new)>(x: Option<T>, xs: seq<Option<T>>)
    ensures Compact([x] + xs) == Present(x) + Compact(xs)
  {
    CompactConcat([x], xs);
    assert [x][..0] == [];
  }

  /** `Filter` over three elements, element by element. */
  lemma FilterTriple<T(!new)>(a: T, b: T, c: T, keep: T -> bool)
    ensures Filter([a, b, c], keep)
      == (if keep(a) then [a] else []) + (if keep(b) then [b] else []) + (if keep(c) then [c] else [])
  {
    assert [a, b, c][..2] == [a, b];
    assert [a, b][..1] == [a];
    assert [a][..0] == [];
    var ka := if keep(a) then [a] else [];
    assert Filter([a], keep) == ka;
    assert Filter([a, b], keep) == ka + (if keep(b) then [b] else []);
  }

  /** `Compact` over three elements, element by element. */
  lemma CompactTriple<T(!new)>(a: Option<T>, b: Option<T>, c: Option<T>)
    ensures Compact([a, b, c])
      == Present(a) + Present(b) + Present(c)
  {
    assert [a, b, c][..2] == [a, b];
    assert [a, b][..1] == [a];
    assert [a][..0] == [];
    assert Compact([a]) == Present(a);
    assert Compact([a, b]) == Present(a) + Present(b);
  }

  /** A list is its part before `k`, its element at `k` and its part after. */
  lemma SplitAt<T>(xs: seq<T>, k: nat)
    requires k < |xs|
    ensures xs == (xs[..k] + [xs[k]]) + xs[k + 1..]
  {
  }

  /** `xs.indexOf(x)`: the first position of `x`, or -1. */
  function IndexOf<T(==)>(xs: seq<T>, x: T): (i: int)
    ensures -1 <= i < |xs|
    ensures i == -1 <==> x !in xs
    ensures 0 <= i ==> xs[i] == x && x !in xs[..i]
  {
    if |xs| == 0 then -1
    else if xs[0] == x then 0
    else
      var k := IndexOf(xs[1..], x);
      assert k >= 0 ==> xs[..k + 1] == [xs[0]] + xs[1..][..k];
      if k == -1 then -1 else k + 1
  }

  /** `indexOf` returns the one position holding `x` with no earlier occurrence. */
  lemma IndexOfFirst<T>(xs: seq<T>, x: T, k: nat)
    requires k < |xs| && xs[k] == x
    requires forall j :: 0 <= j < k ==> xs[j] != x
    ensures IndexOf(xs, x) == k
  {
    assert xs[k] in xs;
  }

  /** `xs.splice(i, 1)`: `xs` without its element at `i`. */
  function RemoveAt<T>(xs: seq<T>, i: nat): (r: seq<T>)
    requires i < |xs|
    ensures |r| == |xs| - 1
    ensures multiset(r) + multiset{xs[i]} == multiset(xs)
    ensures forall k :: 0 <= k < i ==> r[k] == xs[k]
    ensures forall k :: i <= k < |r| ==> r[k] == xs[k + 1]
  {
    assert xs == xs[..i] + [xs[i]] + xs[i + 1..];
    xs[..i] + xs[i + 1..]
  }
}
