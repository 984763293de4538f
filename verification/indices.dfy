/**
 Index orders over a dataset of n examples: the ascending order 0, 1, ..., n-1
 (numpy's `arange(n)`), its rearrangements (what an in-place shuffle of that
 array can produce), and reading a sequence through an index order.
 */
module Indices {

  /** The indices 0, 1, ..., n-1 in ascending order. */
  function Identity(n: nat): seq<nat> {
    seq(n, i => i)
  }

  /** `idx` is a rearrangement of 0, 1, ..., n-1: the same indices, each as
      often as in the ascending order. */
  ghost predicate IsPermutation(idx: seq<nat>, n: nat) {
    multiset(idx) == multiset(Identity(n))
  }

  /** Every index of `idx` is below `bound`. */
  ghost predicate InRange(idx: seq<nat>, bound: nat) {
    forall i :: 0 <= i < |idx| ==> idx[i] < bound
  }

  /** Extending an order prefix by one in-range index keeps it in range. */
  lemma InRangeExtend(idx: seq<nat>, i: nat, bound: nat)
    requires i < |idx| && InRange(idx[..i], bound) && idx[i] < bound
    ensures InRange(idx[..i + 1], bound)
  {
    var ext := idx[..i + 1];
    forall j | 0 <= j < |ext|
      ensures ext[j] < bound
    {
      if j < i {
        assert ext[j] == idx[..i][j];
      }
    }
  }

  /** The elements of `s` at the positions listed in `idx`, in the order of `idx`. */
  function Gather<T>(s: seq<T>, idx: seq<nat>): seq<T>
    requires InRange(idx, |s|)
  {
    seq(|idx|, i requires 0 <= i < |idx| => s[idx[i]])
  }

  /** Each index below n occurs exactly once in the ascending order, and no other index occurs. */
  lemma {:induction false} IdentityMultiplicity(n: nat, v: nat)
    ensures multiset(Identity(n))[v] == if v < n then 1 else 0
  {
    if n > 0 {
      assert Identity(n) == Identity(n - 1) + [n - 1];
      IdentityMultiplicity(n - 1, v);
    }
  }

  /** A rearrangement of 0..n-1 has length n and lists only indices below n. */
  lemma PermutationInRange(idx: seq<nat>, n: nat)
    requires IsPermutation(idx, n)
    ensures |idx| == n
    ensures InRange(idx, n)
  {
    assert |idx| == |multiset(idx)| == |multiset(Identity(n))| == n;
    forall i | 0 <= i < |idx|
      ensures idx[i] < n
    {
      assert idx[i] in multiset(idx);
      IdentityMultiplicity(n, idx[i]);
    }
  }

  /** A rearrangement of 0..n-1 lists every index below n ... */
  lemma PermutationCovers(idx: seq<nat>, n: nat, v: nat)
    requires IsPermutation(idx, n)
    requires v < n
    ensures v in idx
  {
    IdentityMultiplicity(n, v);
    assert v in multiset(idx);
  }

  /** ... and lists none of them twice. */
  lemma PermutationDistinct(idx: seq<nat>, n: nat)
    requires IsPermutation(idx, n)
    ensures forall i, j :: 0 <= i < j < |idx| ==> idx[i] != idx[j]
  {
    forall i, j | 0 <= i < j < |idx|
      ensures idx[i] != idx[j]
    {
      var v := idx[j];
      IdentityMultiplicity(n, v);
      assert idx == idx[..j] + [v] + idx[j + 1..];
      assert multiset(idx)[v] == multiset(idx[..j])[v] + 1 + multiset(idx[j + 1..])[v];
      assert idx[..j][i] == idx[i];
      assert idx[i] in multiset(idx[..j]);
    }
  }

  /** Reading through the ascending order 0..n-1 gives back the first n elements. */
  lemma GatherPrefix<T>(s: seq<T>, n: nat)
    requires n <= |s|
    ensures InRange(Identity(n), |s|)
    ensures Gather(s, Identity(n)) == s[..n]
  {
  }

  /** Reading through a concatenation of orders concatenates the readings. */
  lemma GatherAppend<T>(s: seq<T>, u: seq<nat>, v: seq<nat>)
    requires InRange(u, |s|) && InRange(v, |s|)
    ensures InRange(u + v, |s|)
    ensures Gather(s, u + v) == Gather(s, u) + Gather(s, v)
  {
  }

  /** Removing one occurrence of the same index from two orders that list the
      same indices leaves two orders that still list the same indices. */
  lemma RemoveMatching(a: seq<nat>, c: seq<nat>, p: nat)
    requires |a| > 0 && p < |c| && c[p] == a[0]
    requires multiset(a) == multiset(c)
    ensures multiset(a[1..]) == multiset(c[..p] + c[p + 1..])
  {
    var x := a[0];
    assert c == c[..p] + [x] + c[p + 1..];
    assert a == [x] + a[1..];
    assert multiset(c) == multiset(c[..p]) + multiset{x} + multiset(c[p + 1..]);
    assert multiset(a) == multiset{x} + multiset(a[1..]);
    assert multiset(c[..p] + c[p + 1..]) == multiset(c[..p]) + multiset(c[p + 1..]);
    forall y
      ensures multiset(a[1..])[y] == multiset(c[..p] + c[p + 1..])[y]
    {
      assert multiset(a)[y] == multiset(c)[y];
    }
  }

  /** An order with one index at position p is the part before p, that index, and the part after. */
  lemma SplitAt<T>(s: seq<T>, c: seq<nat>, p: nat)
    requires InRange(c, |s|) && p < |c|
    ensures InRange(c[..p], |s|) && InRange(c[p + 1..], |s|)
    ensures multiset(Gather(s, c)) == multiset(Gather(s, c[..p])) + multiset{s[c[p]]} + multiset(Gather(s, c[p + 1..]))
  {
    assert InRange(c[..p], |s|) by {
      forall i | 0 <= i < p
        ensures c[..p][i] < |s|
      {
        assert c[..p][i] == c[i];
      }
    }
    assert InRange(c[p + 1..], |s|) by {
      var after := c[p + 1..];
      forall i | 0 <= i < |after|
        ensures after[i] < |s|
      {
        assert after[i] == c[p + 1 + i];
      }
    }
    assert c == c[..p] + [c[p]] + c[p + 1..];
    GatherAppend(s, c[..p], [c[p]]);
    GatherAppend(s, c[..p] + [c[p]], c[p + 1..]);
  }

  /** Two orders listing the same indices, each as often, read the same elements, each as often. */
  lemma {:induction false} GatherRearrange<T>(s: seq<T>, a: seq<nat>, c: seq<nat>)
    requires InRange(a, |s|) && InRange(c, |s|)
    requires multiset(a) == multiset(c)
    ensures multiset(Gather(s, a)) == multiset(Gather(s, c))
    decreases |a|
  {
    if a == [] {
      assert |c| == |multiset(c)| == 0;
    } else {
      assert a[0] in multiset(c) by {
        assert a[0] in multiset(a);
      }
      var p :| 0 <= p < |c| && c[p] == a[0];
      SplitAt(s, c, p);
      SplitAt(s, a, 0);
      RemoveMatching(a, c, p);
      GatherAppend(s, c[..p], c[p + 1..]);
      GatherRearrange(s, a[1..], c[..p] + c[p + 1..]);
      RearrangeStep(s, a, c, p);
    }
  }

  /** The step of GatherRearrange: matching the first index of `a` with
      position p of `c`, the readings agree when the remainders' readings do. */
  lemma RearrangeStep<T>(s: seq<T>, a: seq<nat>, c: seq<nat>, p: nat)
    requires InRange(a, |s|) && InRange(c, |s|) && |a| > 0 && p < |c| && c[p] == a[0]
    requires InRange(a[1..], |s|) && InRange(c[..p] + c[p + 1..], |s|)
    requires multiset(Gather(s, a[1..])) == multiset(Gather(s, c[..p] + c[p + 1..]))
    ensures multiset(Gather(s, a)) == multiset(Gather(s, c))
  {
    SplitAt(s, c, p);
    SplitAt(s, a, 0);
    assert a[..0] == [];
    GatherAppend(s, c[..p], c[p + 1..]);
  }

  /** Reading the first n elements of `s` through a rearrangement of 0..n-1
      yields those n elements, each as often as they occur there. */
  lemma GatherPermutation<T>(s: seq<T>, idx: seq<nat>, n: nat)
    requires n <= |s|
    requires IsPermutation(idx, n)
    ensures InRange(idx, |s|)
    ensures multiset(Gather(s, idx)) == multiset(s[..n])
  {
    PermutationInRange(idx, n);
    GatherPrefix(s, n);
    GatherRearrange(s, idx, Identity(n));
  }
}
