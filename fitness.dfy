/** Fitness evaluation of one generation and the best-so-far record it maintains. */
module Fitness {
  import opened Tours
  import opened Geometry

  /** A tour whose fitness `1 / length` is defined. */
  ghost predicate Scorable(dist: Distance, t: seq<Point>) {
    |t| >= 1 && TourLength(dist, t) > 0.0
  }

  ghost predicate AllScorable(dist: Distance, pop: seq<seq<Point>>) {
    forall k :: 0 <= k < |pop| ==> Scorable(dist, pop[k])
  }

  /** The fitness of a tour: the reciprocal of its length, so shorter tours are fitter. */
  function TourFitness(dist: Distance, t: seq<Point>): (f: real)
    requires Scorable(dist, t)
    ensures f > 0.0
  {
    1.0 / TourLength(dist, t)
  }

  /** The fitness dictionary after its first `n` insertions, keys in insertion order. */
  function FitnessMap(dist: Distance, pop: seq<seq<Point>>, n: nat): map<nat, real>
    requires n <= |pop| && AllScorable(dist, pop)
  {
    if n == 0 then map[] else FitnessMap(dist, pop, n - 1)[n - 1 := TourFitness(dist, pop[n - 1])]
  }

  /** The dictionary holds one positive fitness per index of the population and nothing else. */
  lemma {:induction false} FitnessMapIsFitness(dist: Distance, pop: seq<seq<Point>>, n: nat)
    requires n <= |pop| && AllScorable(dist, pop)
    ensures var m := FitnessMap(dist, pop, n);
      && |m| == n
      && (forall k: nat :: k in m <==> k < n)
      && (forall k: nat :: k < n ==> m[k] == TourFitness(dist, pop[k]) && m[k] > 0.0)
  {
    if n > 0 {
      FitnessMapIsFitness(dist, pop, n - 1);
      var prev := FitnessMap(dist, pop, n - 1);
      assert FitnessMap(dist, pop, n) == prev[n - 1 := TourFitness(dist, pop[n - 1])];
    }
  }

  /** The index of the earliest tour of minimum length among `pop[..n]`: the choice the strict
      comparison in the evaluation loop makes. */
  function BestIndex(dist: Distance, pop: seq<seq<Point>>, n: nat): (b: nat)
    requires 1 <= n <= |pop|
    requires forall k :: 0 <= k < |pop| ==> |pop[k]| >= 1
    ensures b < n
    ensures forall k :: 0 <= k < n ==> TourLength(dist, pop[b]) <= TourLength(dist, pop[k])
    ensures forall k :: 0 <= k < b ==> TourLength(dist, pop[k]) > TourLength(dist, pop[b])
  {
    if n == 1 then 0
    else
      var b := BestIndex(dist, pop, n - 1);
      if TourLength(dist, pop[n - 1]) < TourLength(dist, pop[b]) then n - 1 else b
  }

  /** The two globals as a value: the recorded length and route. */
  datatype Best = Best(len: real, route: seq<Point>)

  /** `local_best` and `local_route` after the scan of `gen`: its earliest shortest tour and
      that tour's length. */
  function LocalBest(dist: Distance, gen: seq<seq<Point>>): Best
    requires |gen| >= 1 && forall k :: 0 <= k < |gen| ==> |gen[k]| >= 1
  {
    var localRoute := gen[BestIndex(dist, gen, |gen|)];
    Best(TourLength(dist, localRoute), localRoute)
  }

  /** The rule by which `eval_fitness` updates the record with a generation's local best: the
      local best replaces the record when the record is unset (length 0) or the local best is
      strictly shorter; on a tie the record is kept. */
  function Update(b: Best, local: Best): Best {
    if b.len == 0.0 || local.len < b.len then local else b
  }

  /** The process-wide record of the shortest tour seen so far. A length of 0 means that no
      generation has been evaluated yet. */
  /** The scan of `eval_fitness`: one fitness per member in insertion order, and the earliest
      member of minimum length with that length. */
  method ScanGeneration(dist: Distance, poplist: seq<seq<Point>>)
    returns (fitdict: map<nat, real>, localBest: real, localRoute: seq<Point>)
    requires |poplist| >= 1 && AllScorable(dist, poplist)
    ensures fitdict == FitnessMap(dist, poplist, |poplist|)
    ensures Best(localBest, localRoute) == LocalBest(dist, poplist)
    ensures localRoute in poplist && localBest == TourLength(dist, localRoute)
    ensures forall k :: 0 <= k < |poplist| ==> localBest <= TourLength(dist, poplist[k])
  {
    fitdict := map[];
    var d := TotalDistance(dist, poplist[0]);
    assert 1.0 / d == TourFitness(dist, poplist[0]);
    fitdict := fitdict[0 := 1.0 / d];
    localBest := d;
    localRoute := poplist[0];
    ghost var b := 0;
    var i := 1;
    while i < |poplist|
      invariant 1 <= i <= |poplist|
      invariant fitdict == FitnessMap(dist, poplist, i)
      invariant b == BestIndex(dist, poplist, i)
      invariant localRoute == poplist[b] && localBest == TourLength(dist, localRoute)
    {
      d := TotalDistance(dist, poplist[i]);
      assert 1.0 / d == TourFitness(dist, poplist[i]);
      fitdict := fitdict[i := 1.0 / d];
      if d < localBest {
        localBest := d;
        localRoute := poplist[i];
        b := i;
      }
      i := i + 1;
    }
  }

  /** One evaluation never lengthens a set record, leaves a positive record no longer than any
      member of the generation, and keeps either the incumbent or the generation's best. */
  lemma UpdateShortens(dist: Distance, poplist: seq<seq<Point>>, before: Best)
    requires |poplist| >= 1 && AllScorable(dist, poplist) && before.len >= 0.0
    ensures var after := Update(before, LocalBest(dist, poplist));
      && after.len > 0.0
      && (before.len != 0.0 ==> after.len <= before.len)
      && (forall k :: 0 <= k < |poplist| ==> after.len <= TourLength(dist, poplist[k]))
      && (after == before || after == LocalBest(dist, poplist))
  {
    var b := BestIndex(dist, poplist, |poplist|);
    assert Scorable(dist, poplist[b]);
  }

  class BestRecord {
    const dist: Distance
    var shortestDistance: real
    var bestRoute: seq<Point>

    /** Either unset, or a positive length that is the length of the recorded route. */
    ghost predicate Valid()
      reads this
    {
      || (shortestDistance == 0.0 && bestRoute == [])
      || (shortestDistance > 0.0 && |bestRoute| >= 1 && TourLength(dist, bestRoute) == shortestDistance)
    }

    constructor (dist: Distance)
      ensures Valid() && this.dist == dist
      ensures shortestDistance == 0.0 && bestRoute == []
    {
      this.dist := dist;
      shortestDistance := 0.0;
      bestRoute := [];
    }

    /** `eval_fitness`: the fitness of every member, and the record replaced by the generation's
        earliest shortest tour when the record is unset or that tour is strictly shorter. */
    method EvalFitness(poplist: seq<seq<Point>>) returns (fitdict: map<nat, real>)
      requires Valid()
      requires |poplist| >= 1 && AllScorable(dist, poplist)
      modifies this
      ensures Valid() && shortestDistance > 0.0
      ensures fitdict == FitnessMap(dist, poplist, |poplist|)
      ensures Best(shortestDistance, bestRoute) == Update(Best(old(shortestDistance), old(bestRoute)), LocalBest(dist, poplist))
      ensures old(shortestDistance) != 0.0 ==> shortestDistance <= old(shortestDistance)
      ensures forall k :: 0 <= k < |poplist| ==> shortestDistance <= TourLength(dist, poplist[k])
    {
      var localBest, localRoute;
      fitdict, localBest, localRoute := ScanGeneration(dist, poplist);
      if shortestDistance == 0.0 {
        shortestDistance := localBest;
        bestRoute := localRoute;
      } else if shortestDistance > localBest {
        shortestDistance := localBest;
        bestRoute := localRoute;
      }
      UpdateShortens(dist, poplist, Best(old(shortestDistance), old(bestRoute)));
    }
  }
}
