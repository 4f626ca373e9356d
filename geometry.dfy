/** Tour length: the sum of the edges of a closed tour. */
module Geometry {
  import opened Tours

  /** The sum of the first `k` edges of the open path through `s`:
      dist(s[0], s[1]) + ... + dist(s[k - 1], s[k]). */
  function PathLength(dist: Distance, s: seq<Point>, k: nat): real
    requires k < |s|
  {
    if k == 0 then 0.0 else PathLength(dist, s, k - 1) + dist(s[k - 1], s[k])
  }

  /** The length of `s` read as a cycle: its consecutive edges plus the closing edge
      between the first and the last point. A one-point tour has no edges. */
  function TourLength(dist: Distance, s: seq<Point>): real
    requires |s| >= 1
  {
    if |s| == 1 then 0.0 else PathLength(dist, s, |s| - 1) + dist(s[0], s[|s| - 1])
  }

  /** `total_distance`: the cyclic tour length, summed edge by edge. */
  method TotalDistance(dist: Distance, lst: seq<Point>) returns (disttot: real)
    requires |lst| >= 1
    ensures disttot == TourLength(dist, lst)
    ensures disttot >= 0.0
    ensures |lst| == 1 ==> disttot == 0.0
  {
    var length := |lst|;
    disttot := 0.0;
    if length == 1 {
      return 0.0;
    }
    var i := 0;
    while i < length - 1
      invariant 0 <= i <= length - 1
      invariant disttot == PathLength(dist, lst, i)
      invariant disttot >= 0.0
    {
      disttot := disttot + dist(lst[i], lst[i + 1]);
      i := i + 1;
    }
    disttot := disttot + dist(lst[0], lst[length - 1]);
  }

  /** No path is shorter than any of its prefixes, and none is negative. */
  lemma {:induction false} PathLengthMonotone(dist: Distance, s: seq<Point>, j: nat, k: nat)
    requires j <= k < |s|
    ensures 0.0 <= PathLength(dist, s, j) <= PathLength(dist, s, k)
  {
    if j < k {
      PathLengthMonotone(dist, s, j, k - 1);
    } else if j > 0 {
      PathLengthMonotone(dist, s, j - 1, j - 1);
    }
  }

  /** A tour is never negative in length. */
  lemma TourLengthNonNegative(dist: Distance, s: seq<Point>)
    requires |s| >= 1
    ensures TourLength(dist, s) >= 0.0
  {
    PathLengthMonotone(dist, s, |s| - 1, |s| - 1);
  }

  /** A tour whose first edge is positive has positive length, so its fitness
      `1 / length` is defined. */
  lemma TourLengthPositive(dist: Distance, s: seq<Point>)
    requires |s| >= 2 && dist(s[0], s[1]) > 0.0
    ensures TourLength(dist, s) > 0.0
  {
    PathLengthMonotone(dist, s, 1, |s| - 1);
  }

  /** The edge count: a tour of `n >= 2` points is the sum of `n` edges, the edge from each
      point to its successor and from the last point back to the first. */
  function CycleSum(dist: Distance, s: seq<Point>, k: nat): real
    requires k <= |s|
  {
    if k == 0 then 0.0 else CycleSum(dist, s, k - 1) + dist(s[k - 1], if k < |s| then s[k] else s[0])
  }

  ghost predicate Symmetric(dist: Distance) {
    forall p, q :: dist(p, q) == dist(q, p)
  }

  /** For a symmetric distance, the tour length is the sum of the `n` edges of the cycle. */
  lemma {:induction false} TourLengthIsCycleSum(dist: Distance, s: seq<Point>)
    requires |s| >= 2 && Symmetric(dist)
    ensures TourLength(dist, s) == CycleSum(dist, s, |s|)
  {
    CycleSumIsPathLength(dist, s, |s| - 1);
  }

  lemma {:induction false} CycleSumIsPathLength(dist: Distance, s: seq<Point>, k: nat)
    requires k < |s|
    ensures CycleSum(dist, s, k) == PathLength(dist, s, k)
  {
    if k > 0 {
      CycleSumIsPathLength(dist, s, k - 1);
    }
  }

  /** The path through `s` starts with the edge from `s[0]` to `s[1]` and continues as the
      path through `s[1..]`. */
  lemma {:induction false} PathLengthTail(dist: Distance, s: seq<Point>, k: nat)
    requires 1 <= k < |s|
    ensures PathLength(dist, s, k) == dist(s[0], s[1]) + PathLength(dist, s[1..], k - 1)
  {
    if k > 1 {
      PathLengthTail(dist, s, k - 1);
    }
  }

  /** Extending `s` at the end leaves the paths through its prefix unchanged. */
  lemma {:induction false} PathLengthAppend(dist: Distance, s: seq<Point>, t: seq<Point>, k: nat)
    requires k < |s|
    ensures PathLength(dist, s + t, k) == PathLength(dist, s, k)
  {
    if k > 0 {
      PathLengthAppend(dist, s, t, k - 1);
    }
  }

  /** A tour is a cycle: for a symmetric distance, starting it one point later gives the same
      length, so every rotation of a tour is an equally good solution. */
  lemma {:induction false} TourLengthRotate(dist: Distance, s: seq<Point>)
    requires |s| >= 2 && Symmetric(dist)
    ensures TourLength(dist, s[1..] + [s[0]]) == TourLength(dist, s)
  {
    var n := |s|;
    var r := s[1..] + [s[0]];
    PathLengthTail(dist, s, n - 1);
    PathLengthAppend(dist, s[1..], [s[0]], n - 2);
    assert r[0] == s[1] && r[n - 2] == s[n - 1] && r[n - 1] == s[0];
    assert PathLength(dist, r, n - 1) == PathLength(dist, r, n - 2) + dist(s[n - 1], s[0]);
    assert dist(s[n - 1], s[0]) == dist(s[0], s[n - 1]);
    assert dist(s[1], s[0]) == dist(s[0], s[1]);
  }
}
