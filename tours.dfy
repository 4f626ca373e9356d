/** Points and tours: the values every part of the genetic-algorithm engine works on. */
module Tours {

  /** One record of the coordinate file: its identifier and its two coordinates. */
  datatype Point = Point(id: int, x: real, y: real)

  /** A slot that may still be empty (the crossover child's placeholder). */
  datatype Option<T> = None | Some(value: T)

  /** The distance between two points. Only its non-negativity is known to the model;
      the Euclidean formula with its floating-point square root is left abstract. */
  type Distance = d: (Point, Point) -> real | forall p: Point, q: Point :: d(p, q) >= 0.0
    witness (p: Point, q: Point) => 0.0

  /** Every point occurs at most once. */
  ghost predicate NoDuplicates(s: seq<Point>) {
    forall p :: multiset(s)[p] <= 1
  }

  /** `t` visits exactly the points of `points`, each as often as it occurs there. */
  ghost predicate IsTourOf(t: seq<Point>, points: seq<Point>) {
    multiset(t) == multiset(points)
  }

  /** Two different points of `points` are never at distance zero. */
  ghost predicate Separated(dist: Distance, points: seq<Point>) {
    forall p, q :: p in points && q in points && p != q ==> dist(p, q) > 0.0
  }

  /** `s` with the occupants of positions `i` and `j` exchanged. */
  function Swap(s: seq<Point>, i: nat, j: nat): (r: seq<Point>)
    requires i < |s| && j < |s|
    ensures |r| == |s| && r[i] == s[j] && r[j] == s[i]
    ensures forall k :: 0 <= k < |s| && k != i && k != j ==> r[k] == s[k]
    ensures multiset(r) == multiset(s)
  {
    s[i := s[j]][j := s[i]]
  }

  /** A tour that is a permutation of duplicate-free points is itself duplicate-free. */
  lemma TourOfDistinctIsDistinct(t: seq<Point>, points: seq<Point>)
    requires IsTourOf(t, points) && NoDuplicates(points)
    ensures NoDuplicates(t)
  {
  }

  /** The first two stops of a duplicate-free tour are different points. */
  lemma {:induction false} FirstTwoDiffer(t: seq<Point>)
    requires |t| >= 2 && NoDuplicates(t)
    ensures t[0] != t[1]
  {
    assert t == [t[0], t[1]] + t[2..];
    assert multiset(t) == multiset{t[0], t[1]} + multiset(t[2..]);
    assert multiset{t[0], t[1]}[t[0]] <= multiset(t)[t[0]] <= 1;
  }
}
