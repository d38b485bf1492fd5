/** An order-preserving filter-and-transform over a sequence, the shape of a
    Python loop that appends `f(x)` for every `x` passing a test, and of a
    generator comprehension with an `if` clause. The lemmas characterise the
    result completely: element number `Rank(xs, keep, i)` of the result comes
    from `xs[i]`, every element comes from exactly one kept input, and nothing
    is reordered, merged or dropped. */
module Picking {

  /** `[f(x) for x in xs if keep(x)]`, defined from the back so that one loop
      step appends one element. */
  function Pick<T, U>(xs: seq<T>, keep: T -> bool, f: T -> U): (r: seq<U>)
    ensures |r| <= |xs|
    decreases |xs|
  {
    if xs == [] then []
    else Pick(xs[..|xs| - 1], keep, f) + (if keep(xs[|xs| - 1]) then [f(xs[|xs| - 1])] else [])
  }

  /** The number of elements of `xs` that pass `keep`. */
  function Count<T>(xs: seq<T>, keep: T -> bool): (n: nat)
    ensures n <= |xs|
    decreases |xs|
  {
    if xs == [] then 0
    else Count(xs[..|xs| - 1], keep) + (if keep(xs[|xs| - 1]) then 1 else 0)
  }

  /** The position in the picked sequence of the element picked from `xs[i]`. */
  function Rank<T>(xs: seq<T>, keep: T -> bool, i: nat): nat
    requires i <= |xs|
  {
    Count(xs[..i], keep)
  }

  /** The result holds one element per kept input. */
  lemma {:induction false} PickLength<T, U>(xs: seq<T>, keep: T -> bool, f: T -> U)
    ensures |Pick(xs, keep, f)| == Count(xs, keep)
    decreases |xs|
  {
    if xs != [] {
      PickLength(xs[..|xs| - 1], keep, f);
    }
  }

  /** Counting over a longer prefix never gives less. */
  lemma {:induction false} CountPrefixMonotone<T>(xs: seq<T>, keep: T -> bool, a: nat, b: nat)
    requires a <= b <= |xs|
    ensures Count(xs[..a], keep) <= Count(xs[..b], keep)
    decreases b - a
  {
    if a < b {
      CountPrefixMonotone(xs, keep, a, b - 1);
      assert xs[..b][..b - 1] == xs[..b - 1];
    }
  }

  /** Kept inputs keep their relative order: a later kept input gets a larger rank. */
  lemma {:induction false} RankStrictlyIncreasing<T>(xs: seq<T>, keep: T -> bool, i: nat, j: nat)
    requires i < j <= |xs| && keep(xs[i])
    ensures Rank(xs, keep, i) < Rank(xs, keep, j)
  {
    assert xs[..i + 1][..i] == xs[..i];
    assert Count(xs[..i + 1], keep) == Count(xs[..i], keep) + 1;
    CountPrefixMonotone(xs, keep, i + 1, j);
  }

  /** Every kept input appears in the result, at its rank. */
  lemma {:induction false} PickAt<T, U>(xs: seq<T>, keep: T -> bool, f: T -> U, i: nat)
    requires i < |xs| && keep(xs[i])
    ensures Rank(xs, keep, i) < |Pick(xs, keep, f)|
    ensures Pick(xs, keep, f)[Rank(xs, keep, i)] == f(xs[i])
    decreases |xs|
  {
    var init := xs[..|xs| - 1];
    PickLength(init, keep, f);
    if i == |xs| - 1 {
      assert xs[..i] == init;
    } else {
      assert init[..i] == xs[..i];
      PickAt(init, keep, f, i);
    }
  }

  /** Every element of the result was picked from one kept input, at that input's rank. */
  lemma {:induction false} PickSource<T, U>(xs: seq<T>, keep: T -> bool, f: T -> U, k: nat) returns (i: nat)
    requires k < |Pick(xs, keep, f)|
    ensures i < |xs| && keep(xs[i])
    ensures Rank(xs, keep, i) == k
    ensures Pick(xs, keep, f)[k] == f(xs[i])
    decreases |xs|
  {
    var init := xs[..|xs| - 1];
    PickLength(init, keep, f);
    if k < |Pick(init, keep, f)| {
      i := PickSource(init, keep, f, k);
      assert init[..i] == xs[..i];
    } else {
      i := |xs| - 1;
      assert xs[..i] == init;
    }
  }

  /** When every element passes and `f` is the identity, nothing changes. */
  lemma {:induction false} PickAllKept<T>(xs: seq<T>, keep: T -> bool, f: T -> T)
    requires forall x :: f(x) == x
    requires forall i :: 0 <= i < |xs| ==> keep(xs[i])
    ensures Pick(xs, keep, f) == xs
    decreases |xs|
  {
    if xs != [] {
      PickAllKept(xs[..|xs| - 1], keep, f);
    }
  }

  /** A filter without transformation keeps only elements that pass. */
  lemma {:induction false} PickOnlyKept<T>(xs: seq<T>, keep: T -> bool, f: T -> T)
    requires forall x :: f(x) == x
    ensures forall k :: 0 <= k < |Pick(xs, keep, f)| ==> keep(Pick(xs, keep, f)[k])
  {
    forall k | 0 <= k < |Pick(xs, keep, f)|
      ensures keep(Pick(xs, keep, f)[k])
    {
      var i := PickSource(xs, keep, f, k);
    }
  }

  /** Filtering twice is filtering once. */
  lemma PickIdempotent<T>(xs: seq<T>, keep: T -> bool, f: T -> T)
    requires forall x :: f(x) == x
    ensures Pick(Pick(xs, keep, f), keep, f) == Pick(xs, keep, f)
  {
    PickOnlyKept(xs, keep, f);
    PickAllKept(Pick(xs, keep, f), keep, f);
  }
}
