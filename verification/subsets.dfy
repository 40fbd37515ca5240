/** `itertools.combinations` over positions, as used by the extension searches (dlogic.py:119-120,
    spdl.py:74-75): all strictly increasing index sequences, size by size, each size in
    lexicographic order. */
module Subsets {
  import opened Utils

  predicate Increasing(c: seq<nat>)
  {
    forall i, j :: 0 <= i < j < |c| ==> c[i] < c[j]
  }

  predicate Within(c: seq<nat>, lo: nat, n: nat)
  {
    forall i :: 0 <= i < |c| ==> lo <= c[i] < n
  }

  /** The positions a sequence holds. */
  function Elems(c: seq<nat>): set<nat>
  {
    set x | x in c
  }

  /** `combinations(range(lo, n), k)` in the order itertools produces them. */
  function Comb(lo: nat, n: nat, k: nat): seq<seq<nat>>
    decreases n - lo, k
  {
    if k == 0 then [[]]
    else if lo >= n then []
    else
      Prefixed(lo, Comb(lo + 1, n, k - 1)) + Comb(lo + 1, n, k)
  }

  /** Each list with `x` put in front. */
  function Prefixed(x: nat, xs: seq<seq<nat>>): (r: seq<seq<nat>>)
    ensures |r| == |xs| && forall i :: 0 <= i < |xs| ==> r[i] == [x] + xs[i]
  {
    seq(|xs|, i requires 0 <= i < |xs| => [x] + xs[i])
  }

  lemma CombMembership(lo: nat, n: nat, k: nat, c: seq<nat>)
    ensures c in Comb(lo, n, k) <==> |c| == k && Increasing(c) && Within(c, lo, n)
  {
    CombSound(lo, n, k, c);
    CombComplete(lo, n, k, c);
  }

  lemma {:induction false} CombSound(lo: nat, n: nat, k: nat, c: seq<nat>)
    ensures c in Comb(lo, n, k) ==> |c| == k && Increasing(c) && Within(c, lo, n)
    decreases n - lo, k
  {
    if k > 0 && lo < n && c in Comb(lo, n, k) {
      var withLo := Comb(lo + 1, n, k - 1);
      var first := Prefixed(lo, withLo);
      if c in first {
        var i :| 0 <= i < |first| && first[i] == c;
        var tail := withLo[i];
        CombSound(lo + 1, n, k - 1, tail);
        assert c == [lo] + tail;
        forall j | 1 <= j < |c| ensures c[j] == tail[j - 1] && lo < c[j] {
        }
      } else {
        CombSound(lo + 1, n, k, c);
      }
    }
  }

  lemma {:induction false} CombComplete(lo: nat, n: nat, k: nat, c: seq<nat>)
    ensures |c| == k && Increasing(c) && Within(c, lo, n) ==> c in Comb(lo, n, k)
    decreases n - lo, k
  {
    if k == 0 {
    } else if lo >= n {
      if |c| == k {
        assert !(lo <= c[0] < n);
      }
    } else if |c| == k && Increasing(c) && Within(c, lo, n) {
      if c[0] == lo {
        CombComplete(lo + 1, n, k - 1, c[1..]);
        CombCompleteHead(lo, n, k, c);
      } else {
        CombComplete(lo + 1, n, k, c);
        CombCompleteRest(lo, n, k, c);
      }
    }
  }

  lemma CombCompleteHead(lo: nat, n: nat, k: nat, c: seq<nat>)
    requires 0 < k && lo < n && |c| == k && Increasing(c) && Within(c, lo, n) && c[0] == lo
    requires Increasing(c[1..]) && Within(c[1..], lo + 1, n) ==> c[1..] in Comb(lo + 1, n, k - 1)
    ensures c in Comb(lo, n, k)
  {
    TailAbove(c, lo, n);
    PrefixedMember(lo, Comb(lo + 1, n, k - 1), c[1..]);
    assert c == [lo] + c[1..];
  }

  lemma CombCompleteRest(lo: nat, n: nat, k: nat, c: seq<nat>)
    requires 0 < k && lo < n && |c| == k && Increasing(c) && Within(c, lo, n) && c[0] != lo
    requires Within(c, lo + 1, n) ==> c in Comb(lo + 1, n, k)
    ensures c in Comb(lo, n, k)
  {
    AllAbove(c, lo, n);
  }

  lemma TailAbove(c: seq<nat>, lo: nat, n: nat)
    requires |c| > 0 && Increasing(c) && Within(c, lo, n) && c[0] == lo
    ensures Increasing(c[1..]) && Within(c[1..], lo + 1, n)
  {
    forall j | 0 <= j < |c[1..]| ensures lo + 1 <= c[1..][j] {
      assert c[1..][j] == c[j + 1] && c[0] < c[j + 1];
    }
  }

  lemma AllAbove(c: seq<nat>, lo: nat, n: nat)
    requires |c| > 0 && Increasing(c) && Within(c, lo, n) && c[0] != lo
    ensures Within(c, lo + 1, n)
  {
    forall j | 0 <= j < |c| ensures lo + 1 <= c[j] {
      if j > 0 {
        assert c[0] < c[j];
      }
    }
  }

  lemma PrefixedMember(x: nat, xs: seq<seq<nat>>, t: seq<nat>)
    requires t in xs
    ensures [x] + t in Prefixed(x, xs)
  {
    var i :| 0 <= i < |xs| && xs[i] == t;
    assert Prefixed(x, xs)[i] == [x] + t;
  }

  lemma {:induction false} CombNoDuplicates(lo: nat, n: nat, k: nat)
    ensures NoDuplicates(Comb(lo, n, k))
    decreases n - lo, k
  {
    if k > 0 && lo < n {
      var withLo := Comb(lo + 1, n, k - 1);
      var first := Prefixed(lo, withLo);
      var rest := Comb(lo + 1, n, k);
      CombNoDuplicates(lo + 1, n, k - 1);
      CombNoDuplicates(lo + 1, n, k);
      var all := first + rest;
      forall i, j | 0 <= i < j < |all| ensures all[i] != all[j] {
        if j < |first| {
          assert all[i][1..] == withLo[i] && all[j][1..] == withLo[j];
        } else if i >= |first| {
          assert all[i] == rest[i - |first|] && all[j] == rest[j - |first|];
        } else {
          assert all[i][0] == lo;
          assert all[j] in rest;
          CombMembership(lo + 1, n, k, all[j]);
          assert all[j][0] >= lo + 1;
        }
      }
    }
  }

  /** Sizes `k`, `k+1`, ..., `n`, each block in `Comb` order. */
  function BySizeFrom(n: nat, k: nat): seq<seq<nat>>
    decreases n + 1 - k
  {
    if k > n then [] else Comb(0, n, k) + BySizeFrom(n, k + 1)
  }

  /** All subsets of `0..n-1` as increasing index sequences, by nondecreasing size: the order of
      `for r in range(n + 1): for c in combinations(range(n), r)`. */
  function BySize(n: nat): seq<seq<nat>>
  {
    BySizeFrom(n, 0)
  }

  lemma {:induction false} IncreasingBound(c: seq<nat>, n: nat)
    requires Increasing(c) && Within(c, 0, n)
    ensures |c| <= n
  {
    if |c| > 0 {
      var last := |c| - 1;
      forall i | 0 <= i < |c| ensures c[i] >= i {
        IncreasingAtLeastIndex(c, i);
      }
      assert c[last] >= last;
    }
  }

  lemma {:induction false} IncreasingAtLeastIndex(c: seq<nat>, i: nat)
    requires Increasing(c) && i < |c|
    ensures c[i] >= i
  {
    if i > 0 {
      IncreasingAtLeastIndex(c, i - 1);
    }
  }

  lemma {:induction false} BySizeFromMembership(n: nat, k: nat, c: seq<nat>)
    ensures c in BySizeFrom(n, k) <==> k <= |c| && Increasing(c) && Within(c, 0, n)
    decreases n + 1 - k
  {
    if k <= n {
      CombMembership(0, n, k, c);
      BySizeFromMembership(n, k + 1, c);
      assert c in BySizeFrom(n, k) <==> c in Comb(0, n, k) || c in BySizeFrom(n, k + 1);
      if k <= |c| && Increasing(c) && Within(c, 0, n) && k != |c| {
        assert k + 1 <= |c|;
      }
    } else if k <= |c| && Increasing(c) && Within(c, 0, n) {
      IncreasingBound(c, n);
    }
  }

  /** Every subset of `0..n-1` is visited by the enumeration. */
  lemma BySizeMembership(n: nat, c: seq<nat>)
    ensures c in BySize(n) <==> Increasing(c) && Within(c, 0, n)
  {
    BySizeFromMembership(n, 0, c);
  }

  lemma {:induction false} BySizeFromSizes(n: nat, k: nat)
    ensures forall c :: c in BySizeFrom(n, k) ==> |c| >= k
    ensures forall i, j :: 0 <= i < j < |BySizeFrom(n, k)| ==> |BySizeFrom(n, k)[i]| <= |BySizeFrom(n, k)[j]|
    ensures NoDuplicates(BySizeFrom(n, k))
    decreases n + 1 - k
  {
    if k <= n {
      var block := Comb(0, n, k);
      var rest := BySizeFrom(n, k + 1);
      BySizeFromSizes(n, k + 1);
      CombNoDuplicates(0, n, k);
      forall c | c in block ensures |c| == k {
        CombMembership(0, n, k, c);
      }
      var all := block + rest;
      assert all == BySizeFrom(n, k);
      forall i, j | 0 <= i < j < |all| ensures |all[i]| <= |all[j]| && all[i] != all[j] {
        if j < |block| {
          assert all[i] == block[i] && all[j] == block[j];
        } else if i >= |block| {
          assert all[i] == rest[i - |block|] && all[j] == rest[j - |block|];
        } else {
          assert all[i] in block && all[j] in rest;
        }
      }
      forall c | c in all ensures |c| >= k {
        if c in block {} else { assert c in rest; }
      }
    }
  }

  /** The enumeration never visits a subset twice and never visits a smaller subset after a larger one. */
  lemma BySizeOrdered(n: nat)
    ensures forall i, j :: 0 <= i < j < |BySize(n)| ==> |BySize(n)[i]| <= |BySize(n)[j]|
    ensures NoDuplicates(BySize(n))
  {
    BySizeFromSizes(n, 0);
  }

  lemma BySizeWithin(n: nat)
    ensures forall k :: 0 <= k < |BySize(n)| ==> Within(BySize(n)[k], 0, n)
  {
    forall k | 0 <= k < |BySize(n)| ensures Within(BySize(n)[k], 0, n) {
      BySizeMembership(n, BySize(n)[k]);
    }
  }

  /** The empty subset comes first. */
  lemma BySizeStartsEmpty(n: nat)
    ensures |BySize(n)| > 0 && BySize(n)[0] == []
  {
  }

  /** `combinations(xs, k)` yields the elements of `xs` at the chosen positions. */
  function Pick<T>(xs: seq<T>, c: seq<nat>): (r: seq<T>)
    requires Within(c, 0, |xs|)
    ensures |r| == |c|
    ensures forall i :: 0 <= i < |c| ==> r[i] == xs[c[i]]
  {
    seq(|c|, i requires 0 <= i < |c| => xs[c[i]])
  }

  /** The positions below `n` that satisfy `p`, in increasing order (a list comprehension over
      `range(n)` with a condition). */
  function Positions(p: nat -> bool, n: nat): (r: seq<nat>)
    ensures Increasing(r) && Within(r, 0, n)
    ensures forall x: nat :: x in r <==> x < n && p(x)
  {
    if n == 0 then []
    else
      var prefix := Positions(p, n - 1);
      if p(n - 1) then prefix + [n - 1] else prefix
  }
}
