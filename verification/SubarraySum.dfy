/** The reference solution of "Subarray Sum Equals K": a running prefix sum and
    a dictionary counting how often each prefix sum has occurred. */
module SubarraySum {
  import opened Collections

  /** The sum of the first n numbers. */
  ghost function Prefix(a: seq<int>, n: nat): int
    requires n <= |a|
  {
    Sum(a[..n])
  }

  /** The contiguous non-empty slices a[i..j] that end at or before n and sum to k. */
  ghost function Slices(a: seq<int>, k: int, n: nat): set<(int, int)>
    requires n <= |a|
  {
    set i, j | 0 <= i < j <= n && Sum(a[i..j]) == k :: (i, j)
  }

  /** The prefixes of length at most n whose sum is p. */
  ghost function Starts(a: seq<int>, p: int, n: nat): set<int>
    requires n <= |a|
  {
    set i | 0 <= i <= n && Prefix(a, i) == p
  }

  lemma {:induction false} SliceSum(a: seq<int>, i: nat, j: nat)
    requires i <= j <= |a|
    ensures Sum(a[i..j]) == Prefix(a, j) - Prefix(a, i)
    decreases j
  {
    if i < j {
      SliceSum(a, i, j - 1);
      assert a[i..j][..j - i - 1] == a[i..j - 1];
      PrefixStep(a, j - 1);
    }
  }

  lemma PrefixStep(a: seq<int>, n: nat)
    requires n < |a|
    ensures Prefix(a, n + 1) == Prefix(a, n) + a[n]
  {
    assert a[..n + 1][..n] == a[..n];
  }

  /** The slices ending exactly at n + 1 are those starting at a prefix of sum P - k. */
  lemma SlicesStep(a: seq<int>, k: int, n: nat)
    requires n < |a|
    ensures |Slices(a, k, n + 1)| == |Slices(a, k, n)| + |Starts(a, Prefix(a, n + 1) - k, n)|
  {
    hide Sum, Prefix;
    var starts := Starts(a, Prefix(a, n + 1) - k, n);
    var ending := set i | i in starts :: (i, n + 1);
    PairedSize(starts, n + 1, ending);
    forall i | 0 <= i <= n ensures Sum(a[i..n + 1]) == Prefix(a, n + 1) - Prefix(a, i) {
      SliceSum(a, i, n + 1);
    }
    forall s | s in Slices(a, k, n + 1) ensures s in Slices(a, k, n) + ending {
    }
    forall s | s in Slices(a, k, n) + ending ensures s in Slices(a, k, n + 1) {
    }
    assert Slices(a, k, n) !! ending;
    assert Slices(a, k, n + 1) == Slices(a, k, n) + ending;
  }

  lemma StartsStep(a: seq<int>, p: int, n: nat)
    requires n < |a|
    ensures |Starts(a, p, n + 1)| == |Starts(a, p, n)| + if Prefix(a, n + 1) == p then 1 else 0
  {
    assert Starts(a, p, n + 1) == Starts(a, p, n) + if Prefix(a, n + 1) == p then {n + 1} else {};
  }

  method CountSlices(arr: seq<int>, k: int) returns (count: nat)
    ensures count == |Slices(arr, k, |arr|)|
  {
    var prefixCount: map<int, nat> := map[0 := 1];
    var prefixSum := 0;
    count := 0;
    assert Slices(arr, k, 0) == {};
    forall p ensures GetOr(prefixCount, p, 0) == |Starts(arr, p, 0)| {
      assert Prefix(arr, 0) == 0;
      assert Starts(arr, p, 0) == if p == 0 then {0} else {};
    }
    for i := 0 to |arr|
      invariant prefixSum == Prefix(arr, i)
      invariant count == |Slices(arr, k, i)|
      invariant forall p :: GetOr(prefixCount, p, 0) == |Starts(arr, p, i)|
    {
      PrefixStep(arr, i);
      SlicesStep(arr, k, i);
      prefixSum := prefixSum + arr[i];
      count := count + GetOr(prefixCount, prefixSum - k, 0);
      forall p ensures |Starts(arr, p, i + 1)| == |Starts(arr, p, i)| + if prefixSum == p then 1 else 0 {
        StartsStep(arr, p, i);
      }
      ghost var before := prefixCount;
      prefixCount := prefixCount[prefixSum := GetOr(prefixCount, prefixSum, 0) + 1];
      forall p ensures GetOr(prefixCount, p, 0) == |Starts(arr, p, i + 1)| {
        assert GetOr(prefixCount, p, 0) == GetOr(before, p, 0) + if prefixSum == p then 1 else 0;
      }
    }
  }
}
