/** How `archive` spreads its cameras over worker processes: the round-robin
    split `[cams[i::n] for i in range(n)]`, then the removal of the empty
    shards that appear when there are more processes than cameras. */
module Sharding {

  /** `s[i::n]` for a step `n >= 1`: the elements at `i`, `i + n`, `i + 2n`, ... */
  function Stride<T>(s: seq<T>, i: nat, n: nat): (r: seq<T>)
    requires n >= 1
    ensures |r| <= if i < |s| then |s| - i else 0
    ensures i < |s| ==> r != [] && r[0] == s[i]
    ensures forall x :: x in r ==> x in s
    decreases |s| - i
  {
    if i >= |s| then [] else [s[i]] + Stride(s, i + n, n)
  }

  /** `[s[i::n] for i in range(n)]`; `range(n)` is empty when `n <= 0`, so no
      slice with a step of zero or less is ever taken. */
  function RoundRobin<T>(s: seq<T>, n: int): (shards: seq<seq<T>>)
    ensures |shards| == if n <= 0 then 0 else n
  {
    if n <= 0 then [] else seq(n, i requires 0 <= i < n => Stride(s, i, n))
  }

  /** `[l for l in lists if l != []]`. */
  function NonEmpty<T>(lists: seq<seq<T>>): (kept: seq<seq<T>>)
    ensures |kept| <= |lists|
    ensures forall k :: 0 <= k < |kept| ==> kept[k] != []
  {
    if |lists| == 0 then []
    else if lists[0] == [] then NonEmpty(lists[1..])
    else [lists[0]] + NonEmpty(lists[1..])
  }

  /** The number of shards left once the empty ones are dropped: `min(n, m)`
      for `n` processes and `m` cameras, and none when `n <= 0`. */
  function ShardCount(n: int, m: nat): (c: nat)
    ensures n <= 0 ==> c == 0
    ensures n > 0 ==> c <= n && c <= m && (c == n || c == m)
  {
    if n <= 0 then 0 else if n < m then n else m
  }

  // ---------------------------------------------------------------------
  // Integer division facts

  /** Euclidean division is unique: the quotient and remainder of `a` by `n`
      are the `b` and `c` with `a == b * n + c` and `0 <= c < n`. */
  lemma DivUnique(a: int, n: int, b: int, c: int)
    requires n > 0 && 0 <= c < n && a == b * n + c
    ensures a / n == b && a % n == c
  {
    var q, r := a / n, a % n;
    var d := q - b;
    assert d * n == c - r by {
      assert a == q * n + r;
      assert d * n == q * n - b * n;
    }
    if d >= 1 {
      MulAtLeast(d, n);
    } else if d <= -1 {
      MulAtLeast(-d, n);
    }
  }

  /** The quotient and remainder of `a` by `n` put `a` back together. */
  lemma DivMod(a: int, n: int)
    requires n > 0
    ensures a == (a / n) * n + a % n
  {
  }

  lemma MulAtLeast(x: int, n: int)
    requires x >= 1 && n > 0
    ensures x * n >= n
  {
    assert x * n == (x - 1) * n + n;
  }

  /** Dropping one step `n` from a dividend `a >= n` lowers the quotient by one. */
  lemma DivStep(a: int, n: int)
    requires n > 0 && a >= n
    ensures (a - n) / n + 1 == a / n
  {
    DivUnique(a, n, (a - n) / n + 1, (a - n) % n);
  }

  /** A multiple of `n` that fits in `a` is at most the quotient of `a` by `n`. */
  lemma DivLowerBound(a: int, n: int, k: int)
    requires n > 0 && k * n <= a
    ensures k <= a / n
  {
    var q := a / n;
    assert a == q * n + a % n;
    if k > q {
      MulAtLeast(k - q, n);
    }
  }

  // ---------------------------------------------------------------------
  // One shard

  /** The shard starting at `i` has `(|s| - i - 1) / n + 1` elements when
      `i < |s|` and none otherwise: one for each of `i, i + n, ...` below `|s|`. */
  lemma {:induction false} StrideCount<T>(s: seq<T>, i: nat, n: nat)
    requires n >= 1
    ensures |Stride(s, i, n)| == if i < |s| then (|s| - i - 1) / n + 1 else 0
    decreases |s| - i
  {
    if i < |s| {
      StrideCount(s, i + n, n);
      if i + n < |s| {
        DivStep(|s| - i - 1, n);
      } else {
        DivUnique(|s| - i - 1, n, 0, |s| - i - 1);
      }
    }
  }

  /** Position `k` of the shard starting at `i` holds `s[i + k * n]`. */
  lemma {:induction false} StrideAt<T>(s: seq<T>, i: nat, n: nat, k: nat)
    requires n >= 1 && k < |Stride(s, i, n)|
    ensures i + k * n < |s| && Stride(s, i, n)[k] == s[i + k * n]
    decreases k
  {
    if k > 0 {
      StrideAt(s, i + n, n, k - 1);
      assert i + n + (k - 1) * n == i + k * n;
    }
  }

  /** Shard `i < n` has `m / n` elements, plus one when `i < m % n`, for `m`
      cameras: the first `m % n` shards take one camera more than the others. */
  lemma StrideLength<T>(s: seq<T>, i: nat, n: nat)
    requires 1 <= n && i < n
    ensures |Stride(s, i, n)| == |s| / n + (if i < |s| % n then 1 else 0)
  {
    StrideCount(s, i, n);
    var m, q, r := |s|, |s| / n, |s| % n;
    DivMod(m, n);
    if i >= m {
      DivUnique(m, n, 0, m);
    } else if i < r {
      CountBelowRemainder(m, n, i, q, r);
    } else {
      CountFromRemainder(m, n, i, q, r);
    }
  }

  lemma CountBelowRemainder(m: int, n: int, i: int, q: int, r: int)
    requires 1 <= n && 0 <= i < r < n && m == q * n + r
    ensures (m - i - 1) / n + 1 == q + 1
  {
    DivUnique(m - i - 1, n, q, r - i - 1);
  }

  lemma CountFromRemainder(m: int, n: int, i: int, q: int, r: int)
    requires 1 <= n && 0 <= r <= i < n && i < m && m == q * n + r
    ensures (m - i - 1) / n + 1 == q
  {
    assert m - i - 1 == (q - 1) * n + (n + r - i - 1);
    DivUnique(m - i - 1, n, q - 1, n + r - i - 1);
  }

  // ---------------------------------------------------------------------
  // All shards

  /** Shard `i` holds exactly the cameras whose index `j` has `j % n == i`,
      in their original order: its `k`-th camera is the one at index
      `i + k * n`, whose remainder by `n` is `i` and quotient `k`. */
  lemma ShardContents<T>(s: seq<T>, n: int, i: nat, k: nat)
    requires n >= 1 && i < n && k < |RoundRobin(s, n)[i]|
    ensures var j := i + k * n;
      j < |s| && RoundRobin(s, n)[i][k] == s[j] && j % n == i && j / n == k
  {
    StrideAt(s, i, n, k);
    DivUnique(i + k * n, n, k, i);
  }

  /** Every camera lands in a shard: the one at index `j` is the `j / n`-th
      camera of shard `j % n`. With `ShardContents` this places each camera in
      exactly one shard, at exactly one position. */
  lemma CameraPlacement<T>(s: seq<T>, n: int, j: nat)
    requires n >= 1 && j < |s|
    ensures var i, k := j % n, j / n;
      k < |RoundRobin(s, n)[i]| && RoundRobin(s, n)[i][k] == s[j]
  {
    var i, k := j % n, j / n;
    assert j == k * n + i;
    StrideCount(s, i, n);
    DivLowerBound(|s| - i - 1, n, k);
    StrideAt(s, i, n, k);
  }

  /** Sizes of shards differ by at most one, and earlier shards are never
      smaller than later ones. */
  lemma BalancedShards<T>(s: seq<T>, n: int, i: nat, i': nat)
    requires n >= 1 && i <= i' < n
    ensures |RoundRobin(s, n)[i']| <= |RoundRobin(s, n)[i]| <= |RoundRobin(s, n)[i']| + 1
  {
    StrideLength(s, i, n);
    StrideLength(s, i', n);
  }

  /** Total number of cameras in a list of shards. */
  function TotalSize<T>(lists: seq<seq<T>>): nat {
    if |lists| == 0 then 0 else |lists[0]| + TotalSize(lists[1..])
  }

  /** The last `k` shards hold `m / n` cameras each, plus one for each of
      them below `m % n`. */
  lemma {:induction false} TotalSizeOfLast<T>(s: seq<T>, n: int, k: nat)
    requires n >= 1 && k <= n
    ensures TotalSize(RoundRobin(s, n)[n - k..]) == k * (|s| / n) + (if n - k < |s| % n then |s| % n - (n - k) else 0)
  {
    if k > 0 {
      var lists := RoundRobin(s, n)[n - k..];
      var q, r := |s| / n, |s| % n;
      assert lists[1..] == RoundRobin(s, n)[n - (k - 1)..];
      assert lists[0] == Stride(s, n - k, n);
      TotalSizeOfLast(s, n, k - 1);
      StrideLength(s, n - k, n);
      assert TotalSize(lists) == |lists[0]| + TotalSize(lists[1..]);
      MulStep(k, q);
    }
  }

  lemma MulStep(k: int, q: int)
    ensures k * q == q + (k - 1) * q
  {
  }

  /** The shards together hold as many cameras as there are. */
  lemma ShardsCoverAll<T>(s: seq<T>, n: int)
    requires n >= 1
    ensures TotalSize(RoundRobin(s, n)) == |s|
  {
    TotalSizeOfLast(s, n, n);
    assert RoundRobin(s, n)[0..] == RoundRobin(s, n);
    assert |s| == (|s| / n) * n + |s| % n;
  }

  // ---------------------------------------------------------------------
  // Dropping empty shards

  /** `NonEmpty` keeps the non-empty lists, in their order. */
  lemma {:induction false} NonEmptySpec<T>(lists: seq<seq<T>>)
    ensures forall l :: l in NonEmpty(lists) ==> l != [] && l in lists
    ensures forall l :: l in lists && l != [] ==> l in NonEmpty(lists)
  {
    if |lists| > 0 {
      NonEmptySpec(lists[1..]);
      assert lists == [lists[0]] + lists[1..];
    }
  }

  /** A list whose non-empty members all come before its empty ones loses
      exactly its tail to `NonEmpty`. */
  lemma {:induction false} NonEmptyOfPrefix<T>(lists: seq<seq<T>>, k: nat)
    requires k <= |lists|
    requires forall i :: 0 <= i < |lists| ==> (lists[i] != [] <==> i < k)
    ensures NonEmpty(lists) == lists[..k]
  {
    if |lists| > 0 {
      if k == 0 {
        NonEmptyOfPrefix(lists[1..], 0);
      } else {
        NonEmptyOfPrefix(lists[1..], k - 1);
        assert lists[..k] == [lists[0]] + lists[1..][..k - 1];
      }
    }
  }

  /** Shard `i` is empty exactly when there are no more than `i` cameras. */
  lemma ShardEmptyIff<T>(s: seq<T>, n: int, i: nat)
    requires n >= 1 && i < n
    ensures RoundRobin(s, n)[i] != [] <==> i < |s|
  {
  }

  /** After the empty shards are dropped, exactly `min(n, |s|)` shards remain
      (none when `n <= 0`): the first ones, in index order, all non-empty. */
  lemma KeptShards<T>(s: seq<T>, n: int)
    ensures NonEmpty(RoundRobin(s, n)) == RoundRobin(s, n)[..ShardCount(n, |s|)]
    ensures forall i :: 0 <= i < ShardCount(n, |s|) ==> RoundRobin(s, n)[i] != []
  {
    var lists := RoundRobin(s, n);
    forall i | 0 <= i < |lists|
      ensures lists[i] != [] <==> i < ShardCount(n, |s|)
    {
      ShardEmptyIff(s, n, i);
    }
    NonEmptyOfPrefix(lists, ShardCount(n, |s|));
  }
}
