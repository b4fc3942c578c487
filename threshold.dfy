/** The cut threshold (`get_similarity_clust`): the ledger's branch
    lengths flattened and sorted, and the mean of the two values that
    Python's negative indices -K and -K+1 select. */
module Threshold {
  import opened Ledger

  /** The layers laid end to end, layer 0 first. */
  function Flatten(ds: seq<seq<real>>): (f: seq<real>)
    ensures |f| == TotalSize(ds)
  {
    if |ds| == 0 then [] else Flatten(ds[..|ds| - 1]) + ds[|ds| - 1]
  }

  /** Every length of every layer is in the flattened list, and nothing else. */
  lemma {:induction false} FlattenMembers(ds: seq<seq<real>>, x: real)
    ensures x in Flatten(ds) <==> exists d | 0 <= d < |ds| :: x in ds[d]
  {
    if |ds| > 0 {
      var init := ds[..|ds| - 1];
      FlattenMembers(init, x);
      assert forall d | 0 <= d < |init| :: init[d] == ds[d];
      if x in ds[|ds| - 1] {
        assert x in Flatten(ds);
      }
    }
  }

  predicate IsSorted(s: seq<real>)
  {
    forall i, j | 0 <= i < j < |s| :: s[i] <= s[j]
  }

  /** x placed into a sorted list before the first larger element. */
  function Insert(s: seq<real>, x: real): (r: seq<real>)
    requires IsSorted(s)
    ensures IsSorted(r)
    ensures multiset(r) == multiset(s) + multiset{x}
  {
    if |s| == 0 then [x]
    else if x <= s[0] then [x] + s
    else
      var rest := Insert(s[1..], x);
      HeadBeforeRest(s, x, rest);
      [s[0]] + rest
  }

  /** The step of Insert that keeps the head: the head is at most every
      element of the rest, which holds x and the old tail. */
  lemma HeadBeforeRest(s: seq<real>, x: real, rest: seq<real>)
    requires IsSorted(s) && |s| > 0 && s[0] < x
    requires IsSorted(rest) && multiset(rest) == multiset(s[1..]) + multiset{x}
    ensures IsSorted([s[0]] + rest)
    ensures multiset([s[0]] + rest) == multiset(s) + multiset{x}
  {
    forall k | 0 <= k < |rest| ensures s[0] <= rest[k] {
      assert rest[k] in multiset(rest);
      if rest[k] != x {
        assert rest[k] in s[1..];
        var j :| 0 <= j < |s[1..]| && s[1..][j] == rest[k];
        assert s[0] <= s[j + 1];
      }
    }
    assert s == [s[0]] + s[1..];
  }

  /** `list.sort()`: ascending, a permutation of its input. */
  function SortAsc(s: seq<real>): (r: seq<real>)
    ensures IsSorted(r)
    ensures multiset(r) == multiset(s)
    ensures |r| == |s|
  {
    if |s| == 0 then []
    else
      var init, last := s[..|s| - 1], s[|s| - 1];
      assert s == init + [last];
      assert multiset(s) == multiset(init) + multiset{last};
      Insert(SortAsc(init), last)
  }

  /** Python's `xs[i]` on a list of length n: the position it reads, or
      None where it raises IndexError. */
  function PyIndex(n: nat, i: int): (p: Option<nat>)
    ensures p.Some? ==> p.value < n
    ensures p.Some? <==> -(n as int) <= i < n
    ensures p.Some? && i >= 0 ==> p.value == i
    ensures p.Some? && i < 0 ==> p.value == n + i
  {
    if 0 <= i < n then Some(i)
    else if -(n as int) <= i < 0 then Some(n + i)
    else None
  }

  /** The threshold for cluster number K read off an ascending list s:
      the mean of `s[-K]` and `s[-K+1]`, None where either raises
      IndexError. */
  function CutThreshold(s: seq<real>, clusterNum: int): (r: Option<real>)
    ensures r.Some? ==> exists i, j | 0 <= i < |s| && 0 <= j < |s| ::
      r.value == (s[i] + s[j]) / 2.0 && (s[i] <= r.value <= s[j] || s[j] <= r.value <= s[i])
  {
    var lo, hi := PyIndex(|s|, -clusterNum), PyIndex(|s|, -clusterNum + 1);
    if lo.Some? && hi.Some? then Some((s[lo.value] + s[hi.value]) / 2.0) else None
  }

  /** The threshold over the ledger: its lengths flattened and sorted. */
  function SimilarityThreshold(clusterNum: int, distances: seq<seq<real>>): Option<real>
  {
    CutThreshold(SortAsc(Flatten(distances)), clusterNum)
  }

  /** For 2 <= K <= n the threshold lies between the K-th and the
      (K-1)-th largest values: the K-1 values above position n-K are at
      or above it, the others at or below. */
  lemma ThresholdBetween(s: seq<real>, clusterNum: int)
    requires IsSorted(s) && 2 <= clusterNum <= |s|
    ensures CutThreshold(s, clusterNum).Some?
    ensures var t, n := CutThreshold(s, clusterNum).value, |s|;
      t == (s[n - clusterNum] + s[n - clusterNum + 1]) / 2.0 &&
      s[n - clusterNum] <= t <= s[n - clusterNum + 1] &&
      (forall k | n - clusterNum < k < n :: t <= s[k]) &&
      (forall k | 0 <= k <= n - clusterNum :: s[k] <= t)
  {
    var n := |s|;
    var lo, hi := n - clusterNum, n - clusterNum + 1;
    assert PyIndex(n, -clusterNum) == Some(lo);
    assert PyIndex(n, -clusterNum + 1) == Some(hi);
    var t := (s[lo] + s[hi]) / 2.0;
    assert s[lo] <= s[hi];
    forall k | hi <= k < n ensures t <= s[k] {
      assert s[hi] <= s[k];
    }
    forall k | 0 <= k <= lo ensures s[k] <= t {
      assert s[k] <= s[lo];
    }
  }

  /** For K = 1 the second index is 0, so the threshold averages the
      largest and the smallest value. */
  lemma ThresholdOfOne(s: seq<real>)
    requires |s| >= 1
    ensures CutThreshold(s, 1) == Some((s[|s| - 1] + s[0]) / 2.0)
  {
    assert PyIndex(|s|, -1) == Some(|s| - 1);
  }

  /** The program fails exactly for K beyond the number of values and
      for K with -K+1 past the end. */
  lemma ThresholdDefined(s: seq<real>, clusterNum: int)
    ensures CutThreshold(s, clusterNum).Some? <==>
      -(|s| as int) <= -clusterNum && -clusterNum + 1 < |s|
  {
  }

  /** get_similarity_clust: the flattening loops, the sort, the two reads. */
  method GetSimilarityClust(clusterNum: int, distances: seq<seq<real>>) returns (similarity: Option<real>)
    ensures similarity == SimilarityThreshold(clusterNum, distances)
  {
    var squeezed: seq<real> := [];
    for i := 0 to |distances|
      invariant squeezed == Flatten(distances[..i])
    {
      assert distances[..i + 1][..i] == distances[..i];
      for j := 0 to |distances[i]|
        invariant squeezed == Flatten(distances[..i]) + distances[i][..j]
      {
        assert distances[i][..j + 1] == distances[i][..j] + [distances[i][j]];
        squeezed := squeezed + [distances[i][j]];
      }
      assert distances[i][..|distances[i]|] == distances[i];
    }
    assert distances[..|distances|] == distances;
    var s := SortAsc(squeezed);
    assert CutThreshold(s, clusterNum) == SimilarityThreshold(clusterNum, distances);
    var lo, hi := PyIndex(|s|, -clusterNum), PyIndex(|s|, -clusterNum + 1);
    if lo.None? || hi.None? {
      return None;
    }
    similarity := Some((s[lo.value] + s[hi.value]) / 2.0);
  }
}
