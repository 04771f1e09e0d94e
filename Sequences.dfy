/**
 * Order-preserving subsequences, selection by flags and removal at an index:
 * the vocabulary in which the model states what the source's `filter`,
 * `push` and `splice` preserve.
 */
module Sequences {

  /** `xs` is `ys` restricted to the strictly increasing positions `idx`. */
  ghost predicate SubsequenceVia<T>(xs: seq<T>, ys: seq<T>, idx: seq<nat>) {
    && |idx| == |xs|
    && (forall k :: 0 <= k < |idx| ==> idx[k] < |ys| && xs[k] == ys[idx[k]])
    && (forall k, l :: 0 <= k < l < |idx| ==> idx[k] < idx[l])
  }

  /** `xs` is an order-preserving subsequence of `ys`. */
  ghost predicate IsSubsequence<T>(xs: seq<T>, ys: seq<T>) {
    exists idx :: SubsequenceVia(xs, ys, idx)
  }

  /** `xs.indexOf(x)`: the first position of `x` in `xs`, or -1. */
  function IndexOf<T(==)>(xs: seq<T>, x: T): (i: int)
    ensures -1 <= i < |xs|
    ensures i == -1 <==> x !in xs
    ensures i >= 0 ==> xs[i] == x && x !in xs[..i]
  {
    if |xs| == 0 then -1
    else if xs[0] == x then 0
    else
      var k := IndexOf(xs[1..], x);
      assert k >= 0 ==> xs[..k + 1] == [xs[0]] + xs[1..][..k];
      if k == -1 then -1 else k + 1
  }

  /** The first position holding `x` is the one `IndexOf` finds. */
  lemma IndexOfFirst<T>(xs: seq<T>, x: T, i: nat)
    requires i < |xs| && xs[i] == x
    requires forall j :: 0 <= j < i ==> xs[j] != x
    ensures IndexOf(xs, x) == i
  {
    assert x in xs;
  }

  /** `xs.lastIndexOf(x)`: the last position of `x` in `xs`, or -1. */
  function LastIndexOf<T(==)>(xs: seq<T>, x: T): (i: int)
    ensures -1 <= i < |xs|
    ensures i == -1 <==> x !in xs
    ensures i >= 0 ==> xs[i] == x && x !in xs[i + 1..]
  {
    if |xs| == 0 then -1
    else if xs[|xs| - 1] == x then |xs| - 1
    else
      var k := LastIndexOf(xs[..|xs| - 1], x);
      assert xs == xs[..|xs| - 1] + [xs[|xs| - 1]];
      assert k >= 0 ==> xs[k + 1..] == xs[..|xs| - 1][k + 1..] + [xs[|xs| - 1]];
      k
  }

  /** `xs` with the element at `i` taken out (JavaScript's `splice(i, 1)`). */
  function RemoveAt<T>(xs: seq<T>, i: nat): (r: seq<T>)
    requires i < |xs|
    ensures |r| == |xs| - 1
    ensures multiset(r) + multiset{xs[i]} == multiset(xs)
    ensures forall k :: 0 <= k < i ==> r[k] == xs[k]
    ensures forall k :: i <= k < |r| ==> r[k] == xs[k + 1]
  {
    assert xs == xs[..i] + [xs[i]] + xs[i + 1..];
    xs[..i] + xs[i + 1..]
  }

  /** The elements of `xs` whose flag equals `want`, in order. */
  function Select<T>(xs: seq<T>, flags: seq<bool>, want: bool): (r: seq<T>)
    requires |flags| == |xs|
    ensures |r| <= |xs|
  {
    if |xs| == 0 then []
    else if flags[0] == want then [xs[0]] + Select(xs[1..], flags[1..], want)
    else Select(xs[1..], flags[1..], want)
  }

  /** Selecting the true and the false elements splits `xs` in two. */
  lemma {:induction false} SelectSplits<T>(xs: seq<T>, flags: seq<bool>)
    requires |flags| == |xs|
    ensures |Select(xs, flags, true)| + |Select(xs, flags, false)| == |xs|
    ensures multiset(Select(xs, flags, true)) + multiset(Select(xs, flags, false)) == multiset(xs)
  {
    if |xs| > 0 {
      SelectSplits(xs[1..], flags[1..]);
      assert xs == [xs[0]] + xs[1..];
    }
  }

  lemma SubsequenceOfSelf<T>(xs: seq<T>)
    ensures IsSubsequence(xs, xs)
  {
    var idx := seq(|xs|, k => k);
    assert SubsequenceVia(xs, xs, idx);
  }

  /** A subsequence of `ys` is one of `[y] + ys` too. */
  lemma SubsequenceSkip<T>(xs: seq<T>, y: T, ys: seq<T>)
    requires IsSubsequence(xs, ys)
    ensures IsSubsequence(xs, [y] + ys)
  {
    var idx :| SubsequenceVia(xs, ys, idx);
    var idx' := seq(|idx|, k requires 0 <= k < |idx| => idx[k] + 1);
    assert SubsequenceVia(xs, [y] + ys, idx');
  }

  /** Putting the same element in front of both keeps the relation. */
  lemma SubsequenceKeep<T>(xs: seq<T>, y: T, ys: seq<T>)
    requires IsSubsequence(xs, ys)
    ensures IsSubsequence([y] + xs, [y] + ys)
  {
    var idx :| SubsequenceVia(xs, ys, idx);
    var idx' := [0] + seq(|idx|, k requires 0 <= k < |idx| => idx[k] + 1);
    assert SubsequenceVia([y] + xs, [y] + ys, idx');
  }

  lemma SubsequenceTransitive<T>(xs: seq<T>, ys: seq<T>, zs: seq<T>)
    requires IsSubsequence(xs, ys) && IsSubsequence(ys, zs)
    ensures IsSubsequence(xs, zs)
  {
    var a :| SubsequenceVia(xs, ys, a);
    var b :| SubsequenceVia(ys, zs, b);
    var c := seq(|a|, k requires 0 <= k < |a| => b[a[k]]);
    assert SubsequenceVia(xs, zs, c);
  }

  /** Removing one element leaves an order-preserving subsequence. */
  lemma RemoveAtIsSubsequence<T>(xs: seq<T>, i: nat)
    requires i < |xs|
    ensures IsSubsequence(RemoveAt(xs, i), xs)
  {
    var r := RemoveAt(xs, i);
    var idx := seq(|r|, k requires 0 <= k < |r| => if k < i then k else k + 1);
    assert SubsequenceVia(r, xs, idx);
  }

  /** What `Select` keeps is an order-preserving subsequence. */
  lemma {:induction false} SelectIsSubsequence<T>(xs: seq<T>, flags: seq<bool>, want: bool)
    requires |flags| == |xs|
    ensures IsSubsequence(Select(xs, flags, want), xs)
  {
    if |xs| == 0 {
      assert SubsequenceVia([], xs, []);
    } else {
      SelectIsSubsequence(xs[1..], flags[1..], want);
      assert xs == [xs[0]] + xs[1..];
      if flags[0] == want {
        SubsequenceKeep(Select(xs[1..], flags[1..], want), xs[0], xs[1..]);
      } else {
        SubsequenceSkip(Select(xs[1..], flags[1..], want), xs[0], xs[1..]);
      }
    }
  }
}
