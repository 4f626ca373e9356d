/** Order crossover of two parents and swap mutation of the child. */
module Reproduction {
  import opened Tours

  /** The points of `b` that are not in `slice`, in `b`'s own order. */
  function Remaining(b: seq<Point>, slice: seq<Point>): seq<Point>
  {
    if b == [] then []
    else if b[0] in slice then Remaining(b[1..], slice)
    else [b[0]] + Remaining(b[1..], slice)
  }

  /** `Remaining` keeps every occurrence of a point outside the block and none inside it. */
  lemma {:induction false} RemainingCounts(b: seq<Point>, slice: seq<Point>)
    ensures forall p :: multiset(Remaining(b, slice))[p] == if p in slice then 0 else multiset(b)[p]
  {
    if b != [] {
      RemainingCounts(b[1..], slice);
      assert b == [b[0]] + b[1..];
    }
  }

  /** Scanning `b` from `j`: a point of the block is skipped, the first point outside it is the
      next point to place, and at the end of `b` nothing is left to place. */
  lemma RemainingFrom(b: seq<Point>, j: nat, slice: seq<Point>, fill: seq<Point>, m: nat)
    requires j <= |b| && m <= |fill| && Remaining(b[j..], slice) == fill[m..]
    ensures j == |b| ==> m == |fill|
    ensures j < |b| && b[j] in slice ==> Remaining(b[j + 1..], slice) == fill[m..]
    ensures j < |b| && b[j] !in slice ==>
      m < |fill| && fill[m] == b[j] && Remaining(b[j + 1..], slice) == fill[m + 1..]
  {
    if j < |b| {
      assert b[j..][1..] == b[j + 1..];
      if b[j] !in slice {
        assert fill[m..][0] == fill[m] && fill[m..][1..] == fill[m + 1..];
      }
    } else {
      assert b[j..] == [];
    }
  }

  /** The rank of a position outside the copied block `[start, end]` among all such positions,
      counted from the left. */
  function FreeRank(i: nat, start: nat, end: nat): nat
    requires i < start || end < i
    requires start <= end
  {
    if i < start then i else i - (end - start + 1)
  }

  /** The number of positions outside `[start, end]` that lie below `i`. */
  function FreeBelow(i: nat, start: nat, end: nat): nat
    requires start <= end
  {
    if i <= start then i else if i <= end + 1 then start else i - (end - start + 1)
  }

  function FillAt(fill: seq<Point>, k: nat): Option<Point> {
    if k < |fill| then Some(fill[k]) else None
  }

  /** The order-crossover child: positions `start..end` (both included) hold `a`'s points, the
      other positions, from left to right, hold the points of `b` that are not in that block,
      in `b`'s order; positions left over when those run out stay empty. */
  function OrderCrossover(a: seq<Point>, b: seq<Point>, start: nat, end: nat): (child: seq<Option<Point>>)
    requires start <= end < |a|
  {
    var fill := Remaining(b, a[start..end + 1]);
    seq(|a|, i requires 0 <= i < |a| => ChildAt(a, fill, start, end, i))
  }

  /** Position `i` of the order-crossover child, given the points `fill` taken from the second
      parent. */
  function ChildAt(a: seq<Point>, fill: seq<Point>, start: nat, end: nat, i: nat): Option<Point>
    requires start <= end && i < |a|
  {
    if start <= i <= end then Some(a[i]) else FillAt(fill, FreeRank(i, start, end))
  }

  ghost predicate Complete(c: seq<Option<Point>>) {
    forall i :: 0 <= i < |c| ==> c[i].Some?
  }

  /** The points of a child with no empty position. */
  function Unwrap(c: seq<Option<Point>>): (r: seq<Point>)
    requires Complete(c)
    ensures |r| == |c| && forall i :: 0 <= i < |c| ==> c[i] == Some(r[i])
  {
    seq(|c|, i requires 0 <= i < |c| => c[i].value)
  }

  /** The inner scan of `crossover`: the first position at or after `indexb` whose point of `b`
      is not in the block, or `|b|` when there is none. */
  method NextOutside(b: seq<Point>, indexb: nat, slicea: seq<Point>) returns (j: nat)
    requires indexb <= |b|
    ensures indexb <= j <= |b|
    ensures j < |b| ==> b[j] !in slicea
    ensures forall k :: indexb <= k < j ==> b[k] in slicea
    ensures Remaining(b[indexb..], slicea) == Remaining(b[j..], slicea)
  {
    j := indexb;
    while j < |b|
      invariant indexb <= j <= |b|
      invariant forall k :: indexb <= k < j ==> b[k] in slicea
      invariant Remaining(b[indexb..], slicea) == Remaining(b[j..], slicea)
    {
      assert b[j..][1..] == b[j + 1..];
      if !(b[j] in slicea) {
        return;
      }
      j := j + 1;
    }
  }

  /** `crossover`: the block `a[start..end]` is copied into an empty child, then every empty
      position, from left to right, takes the next point of `b` (scanning forward from a cursor)
      that is not in the block. */
  method Crossover(a: seq<Point>, b: seq<Point>, start: nat, end: nat)
    returns (child: seq<Option<Point>>)
    requires |a| >= 2 && start <= |a| - 2 && start + 1 <= end <= |a| - 1
    ensures child == OrderCrossover(a, b, start, end)
    ensures |child| == |a| && forall i :: start <= i <= end ==> child[i] == Some(a[i])
  {
    var n := |a|;
    child := seq(n, _ => None);
    var slicea := a[start..end + 1];
    child := child[..start] + seq(|slicea|, q requires 0 <= q < |slicea| => Some(slicea[q])) + child[end + 1..];
    ghost var fill := Remaining(b, slicea);
    ghost var m := 0;
    var indexb := 0;
    var i := 0;
    while i < n
      invariant 0 <= i <= n && indexb <= |b| && |child| == n
      invariant m == if FreeBelow(i, start, end) < |fill| then FreeBelow(i, start, end) else |fill|
      invariant Remaining(b[indexb..], slicea) == fill[m..]
      invariant forall q :: 0 <= q < i ==> child[q] == ChildAt(a, fill, start, end, q)
      invariant forall q :: i <= q < n ==> child[q] == if start <= q <= end then Some(a[q]) else None
    {
      if child[i] == None {
        assert FreeBelow(i, start, end) == FreeRank(i, start, end);
        var j := NextOutside(b, indexb, slicea);
        RemainingFrom(b, j, slicea, fill, m);
        if j < |b| {
          child := child[i := Some(b[j])];
          indexb := j + 1;
          m := m + 1;
        }
      }
      i := i + 1;
    }
    assert child == OrderCrossover(a, b, start, end);
  }

  /** When `b` is a permutation of the duplicate-free `a`, the points of `b` outside a block of
      `a` are exactly the points of `a` outside that block. */
  lemma RemainingComplementsBlock(a: seq<Point>, b: seq<Point>, start: nat, end: nat)
    requires start <= end < |a|
    requires NoDuplicates(a) && IsTourOf(b, a)
    ensures multiset(Remaining(b, a[start..end + 1])) + multiset(a[start..end + 1]) == multiset(a)
    ensures |Remaining(b, a[start..end + 1])| == |a| - (end - start + 1)
  {
    var slice := a[start..end + 1];
    var fill := Remaining(b, slice);
    RemainingCounts(b, slice);
    assert a == a[..start] + slice + a[end + 1..];
    forall p
      ensures multiset(fill)[p] + multiset(slice)[p] == multiset(a)[p]
    {
      assert multiset(a)[p] == multiset(a[..start])[p] + multiset(slice)[p] + multiset(a[end + 1..])[p];
    }
    assert multiset(fill) + multiset(slice) == multiset(a);
  }

  /** When `b` is a permutation of the duplicate-free `a`, every position of the child is filled,
      the child is the points of `b` outside the block with the block inserted at `start`, and it
      is a permutation of `a`: every point appears exactly once. */
  lemma CrossoverIsPermutation(a: seq<Point>, b: seq<Point>, start: nat, end: nat)
    requires start <= end < |a|
    requires NoDuplicates(a) && IsTourOf(b, a)
    ensures Complete(OrderCrossover(a, b, start, end))
    ensures var fill := Remaining(b, a[start..end + 1]);
      && start <= |fill|
      && Unwrap(OrderCrossover(a, b, start, end)) == fill[..start] + a[start..end + 1] + fill[start..]
    ensures IsTourOf(Unwrap(OrderCrossover(a, b, start, end)), a)
    ensures NoDuplicates(Unwrap(OrderCrossover(a, b, start, end)))
  {
    var slice := a[start..end + 1];
    var fill := Remaining(b, slice);
    RemainingComplementsBlock(a, b, start, end);
    var child := OrderCrossover(a, b, start, end);
    var expected := fill[..start] + slice + fill[start..];
    assert |expected| == |child|;
    forall i | 0 <= i < |child|
      ensures child[i] == Some(expected[i])
    {
      if i < start {
        assert expected[i] == fill[i];
      } else if i <= end {
        assert expected[i] == slice[i - start];
      } else {
        assert expected[i] == fill[i - (end - start + 1)];
      }
    }
    assert Unwrap(child) == expected;
    assert fill == fill[..start] + fill[start..];
    assert multiset(expected) == multiset(fill) + multiset(slice);
  }

  /** The chance of a mutation. */
  const MutationProbability: real := 0.25

  /** `mutate`: a fresh copy of the tour, in which, when the coin falls below the mutation
      probability, the occupants of positions `i` and `j` are exchanged. */
  method Mutate(a: seq<Point>, coin: real, i: nat, j: nat) returns (acopy: seq<Point>)
    requires coin < MutationProbability ==> i < |a| && j < |a|
    ensures |acopy| == |a| && multiset(acopy) == multiset(a)
    ensures coin >= MutationProbability ==> acopy == a
    ensures coin < MutationProbability ==>
      && acopy[i] == a[j] && acopy[j] == a[i]
      && forall k :: 0 <= k < |a| && k != i && k != j ==> acopy[k] == a[k]
  {
    var arr := new Point[|a|](k requires 0 <= k < |a| => a[k]);
    assert arr[..] == a;
    if coin < MutationProbability {
      var temp := arr[i];
      arr[i] := arr[j];
      arr[j] := temp;
      assert arr[..] == Swap(a, i, j);
    }
    acopy := arr[..];
  }
}
