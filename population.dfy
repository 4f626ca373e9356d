/** The first generation: copies of the point list, taken between in-place shuffles. */
module Population {
  import opened Tours

  /** The draws of one shuffle of `n` elements: the draw for position `i` picks the position,
      at most `i`, whose occupant is exchanged with that of position `i`. */
  ghost predicate ShuffleDraws(draws: seq<nat>, n: nat) {
    |draws| == n && forall i :: 0 <= i < n ==> draws[i] <= i
  }

  /** The shuffle of Python's `random` module: for `i` from the last position down to 1,
      exchange position `i` with position `draws[i]`. `ShuffleFrom(s, draws, i)` is the
      result once the positions below `i` are still to be visited. */
  function ShuffleFrom(s: seq<Point>, draws: seq<nat>, i: nat): (r: seq<Point>)
    requires ShuffleDraws(draws, |s|) && i <= |s|
    ensures |r| == |s| && multiset(r) == multiset(s)
    decreases i
  {
    if i <= 1 then s else ShuffleFrom(Swap(s, i - 1, draws[i - 1]), draws, i - 1)
  }

  /** A whole shuffle of `s`: a permutation of `s`. */
  function Shuffled(s: seq<Point>, draws: seq<nat>): seq<Point>
    requires ShuffleDraws(draws, |s|)
  {
    ShuffleFrom(s, draws, |s|)
  }

  /** `random.shuffle` applied to the list in place. */
  method Shuffle(a: array<Point>, draws: seq<nat>)
    requires ShuffleDraws(draws, a.Length)
    modifies a
    ensures a[..] == Shuffled(old(a[..]), draws)
  {
    var i := a.Length;
    while i > 1
      invariant 0 <= i <= a.Length
      invariant ShuffleFrom(a[..], draws, i) == Shuffled(old(a[..]), draws)
    {
      var j := draws[i - 1];
      assert a[..][i - 1 := a[j]][j := a[i - 1]] == Swap(a[..], i - 1, j);
      a[i - 1], a[j] := a[j], a[i - 1];
      i := i - 1;
    }
  }

  /** The draws of several successive shuffles of `n` elements. */
  ghost predicate ShuffleSeries(shuffles: seq<seq<nat>>, n: nat) {
    forall q :: 0 <= q < |shuffles| ==> ShuffleDraws(shuffles[q], n)
  }

  /** The point list after the first `k` of the given shuffles. */
  function AfterShuffles(s: seq<Point>, shuffles: seq<seq<nat>>, k: nat): (r: seq<Point>)
    requires k <= |shuffles| && ShuffleSeries(shuffles, |s|)
    ensures |r| == |s| && IsTourOf(r, s)
  {
    if k == 0 then s else Shuffled(AfterShuffles(s, shuffles, k - 1), shuffles[k - 1])
  }

  /** `initialize_pop`: member `k` is the copy taken after `k` shuffles of the caller's list,
      so member 0 is the list as passed in; the caller's list is left shuffled `numpop` times. */
  method InitializePop(lst: array<Point>, numpop: nat, shuffles: seq<seq<nat>>)
    returns (poplist: seq<seq<Point>>)
    requires |shuffles| == numpop && ShuffleSeries(shuffles, lst.Length)
    modifies lst
    ensures |poplist| == numpop
    ensures forall k :: 0 <= k < numpop ==> poplist[k] == AfterShuffles(old(lst[..]), shuffles, k)
    ensures numpop > 0 ==> poplist[0] == old(lst[..])
    ensures forall k :: 0 <= k < numpop ==> IsTourOf(poplist[k], old(lst[..]))
    ensures lst[..] == AfterShuffles(old(lst[..]), shuffles, numpop)
    ensures IsTourOf(lst[..], old(lst[..]))
  {
    ghost var orig := lst[..];
    poplist := [];
    var i := 0;
    while i < numpop
      invariant 0 <= i <= numpop
      invariant lst.Length == |orig|
      invariant |poplist| == i
      invariant forall k :: 0 <= k < i ==> poplist[k] == AfterShuffles(orig, shuffles, k)
      invariant lst[..] == AfterShuffles(orig, shuffles, i)
    {
      var copy := lst[..];
      Shuffle(lst, shuffles[i]);
      assert lst[..] == Shuffled(copy, shuffles[i]);
      ghost var prev := poplist;
      poplist := poplist + [copy];
      forall k | 0 <= k <= i
        ensures poplist[k] == AfterShuffles(orig, shuffles, k)
      {
        if k < i {
          assert poplist[k] == prev[k];
        }
      }
      i := i + 1;
    }
  }
}
