/** The evolution loop: one generation built from the previous one, and the whole run. */
module Evolution {
  import opened Tours
  import opened Geometry
  import opened Population
  import opened Fitness
  import opened Selection
  import opened Reproduction

  /** The random draws that build one member of the next generation: two roulette draws in
      [0, 1), the two crossover cut points, the mutation coin and the two swap positions. */
  datatype Draws = Draws(pick1: real, pick2: real, start: nat, end: nat, coin: real, i: nat, j: nat)

  /** Draws in the ranges `random.random` and `random.randint` produce for tours of `n` points. */
  ghost predicate ValidDraws(d: Draws, n: nat) {
    && 0.0 <= d.pick1 < 1.0 && 0.0 <= d.pick2 < 1.0
    && n >= 2 && d.start <= n - 2 && d.start + 1 <= d.end <= n - 1
    && d.i < n && d.j < n
  }

  ghost predicate AllValidDraws(draws: seq<Draws>, n: nat) {
    forall k :: 0 <= k < |draws| ==> ValidDraws(draws[k], n)
  }

  /** Every member of `pop` is a tour of `points`. */
  ghost predicate IsPopulationOf(pop: seq<seq<Point>>, points: seq<Point>) {
    forall k :: 0 <= k < |pop| ==> |pop[k]| == |points| && IsTourOf(pop[k], points)
  }

  /** A tour of at least two distinct, pairwise separated points has positive length. */
  lemma TourOfSeparatedIsScorable(dist: Distance, t: seq<Point>, points: seq<Point>)
    requires |points| >= 2 && NoDuplicates(points) && Separated(dist, points)
    requires IsTourOf(t, points)
    ensures Scorable(dist, t)
  {
    assert |t| == |multiset(t)| == |points|;
    TourOfDistinctIsDistinct(t, points);
    FirstTwoDiffer(t);
    assert t[0] in multiset(points) && t[1] in multiset(points);
    TourLengthPositive(dist, t);
  }

  /** Every tour of the points has positive length, so no evaluation divides by zero: what the
      fitness `1 / dist` needs of every tour the loop may breed. */
  ghost predicate ToursScorable(dist: Distance, points: seq<Point>) {
    forall t {:trigger Scorable(dist, t)} :: IsTourOf(t, points) ==> Scorable(dist, t)
  }

  /** Distinct points that are pairwise at positive distance are one way to meet it. */
  lemma SeparatedToursScorable(dist: Distance, points: seq<Point>)
    requires |points| >= 2 && NoDuplicates(points) && Separated(dist, points)
    ensures ToursScorable(dist, points)
  {
    forall t | IsTourOf(t, points)
      ensures Scorable(dist, t)
    {
      TourOfSeparatedIsScorable(dist, t, points);
    }
  }

  /** Hence every member of a population of tours of the points has a fitness. */
  lemma PopulationIsScorable(dist: Distance, pop: seq<seq<Point>>, points: seq<Point>)
    requires ToursScorable(dist, points) && IsPopulationOf(pop, points)
    ensures AllScorable(dist, pop)
  {
    forall k | 0 <= k < |pop|
      ensures Scorable(dist, pop[k])
    {
      assert IsTourOf(pop[k], points);
    }
  }

  /** The child of parents `a` and `b` under the draws `d`: their order crossover, then the
      exchange of positions `d.i` and `d.j` when the coin falls below the mutation probability. */
  function Offspring(points: seq<Point>, a: seq<Point>, b: seq<Point>, d: Draws): seq<Point>
    requires NoDuplicates(points) && IsTourOf(a, points) && IsTourOf(b, points)
    requires |a| == |points| && ValidDraws(d, |points|)
  {
    TourOfDistinctIsDistinct(a, points);
    CrossoverIsPermutation(a, b, d.start, d.end);
    var child := Unwrap(OrderCrossover(a, b, d.start, d.end));
    if d.coin < MutationProbability then Swap(child, d.i, d.j) else child
  }

  /** The child of two tours of the points is again a tour of the points. */
  lemma OffspringIsTour(points: seq<Point>, a: seq<Point>, b: seq<Point>, d: Draws)
    requires NoDuplicates(points) && IsTourOf(a, points) && IsTourOf(b, points)
    requires |a| == |points| && ValidDraws(d, |points|)
    ensures var t := Offspring(points, a, b, d); |t| == |points| && IsTourOf(t, points)
  {
    TourOfDistinctIsDistinct(a, points);
    CrossoverIsPermutation(a, b, d.start, d.end);
  }

  /** One child of the generation loop: two roulette-selected parents, their order crossover,
      and the mutation of the result. */
  method Breed(points: seq<Point>, parentlist: seq<seq<Point>>, parentdict: map<nat, real>, d: Draws)
    returns (parent1: nat, parent2: nat, tour: seq<Point>)
    requires |points| >= 2 && NoDuplicates(points)
    requires IsPopulationOf(parentlist, points)
    requires DenseKeys(parentdict) && |parentdict| == |parentlist| >= 1
    requires AllPositive(parentdict)
    requires ValidDraws(d, |points|)
    ensures RouletteFrom(parentdict, Spin(parentdict, d.pick1), 0) == Some(parent1)
    ensures RouletteFrom(parentdict, Spin(parentdict, d.pick2), 0) == Some(parent2)
    ensures parent1 < |parentlist| && parent2 < |parentlist|
    ensures tour == Offspring(points, parentlist[parent1], parentlist[parent2], d)
    ensures tour == Child(points, parentlist, parentdict, d)
  {
    var pick1 := PickParent(parentdict, d.pick1);
    var pick2 := PickParent(parentdict, d.pick2);
    ChildOfChosen(points, parentlist, parentdict, d, pick1, pick2);
    parent1, parent2 := pick1.value, pick2.value;
    tour := Procreate(points, parentlist[parent1], parentlist[parent2], d);
  }

  /** The crossover of two parents followed by the mutation of the child. */
  method Procreate(points: seq<Point>, a: seq<Point>, b: seq<Point>, d: Draws) returns (tour: seq<Point>)
    requires NoDuplicates(points) && IsTourOf(a, points) && IsTourOf(b, points)
    requires |a| == |points| && ValidDraws(d, |points|)
    ensures tour == Offspring(points, a, b, d)
  {
    TourOfDistinctIsDistinct(a, points);
    CrossoverIsPermutation(a, b, d.start, d.end);
    var child := Crossover(a, b, d.start, d.end);
    var c := Unwrap(child);
    tour := Mutate(c, d.coin, d.i, d.j);
    if d.coin < MutationProbability {
      assert tour == Swap(c, d.i, d.j);
    }
  }

  /** The child the draws `d` breed from `parentlist`: the offspring of the two parents the
      roulette chooses on `parentdict` with the draws `d.pick1` and `d.pick2`. */
  function Child(points: seq<Point>, parentlist: seq<seq<Point>>, parentdict: map<nat, real>, d: Draws)
    : (r: seq<Point>)
    requires NoDuplicates(points) && IsPopulationOf(parentlist, points)
    requires DenseKeys(parentdict) && |parentdict| == |parentlist| >= 1 && AllPositive(parentdict)
    requires ValidDraws(d, |points|)
    ensures |r| == |points| && IsTourOf(r, points)
  {
    var selected1 := Spin(parentdict, d.pick1);
    var selected2 := Spin(parentdict, d.pick2);
    RouletteChooses(parentdict, d.pick1, selected1);
    RouletteChooses(parentdict, d.pick2, selected2);
    var p1 := RouletteFrom(parentdict, selected1, 0).value;
    var p2 := RouletteFrom(parentdict, selected2, 0).value;
    OffspringIsTour(points, parentlist[p1], parentlist[p2], d);
    Offspring(points, parentlist[p1], parentlist[p2], d)
  }

  /** The child of the draws `d` is the offspring of the two parents the roulette chooses. */
  lemma ChildOfChosen(points: seq<Point>, parentlist: seq<seq<Point>>, parentdict: map<nat, real>, d: Draws,
                      pick1: Option<nat>, pick2: Option<nat>)
    requires NoDuplicates(points) && IsPopulationOf(parentlist, points)
    requires DenseKeys(parentdict) && |parentdict| == |parentlist| >= 1 && AllPositive(parentdict)
    requires ValidDraws(d, |points|)
    requires pick1 == RouletteFrom(parentdict, Spin(parentdict, d.pick1), 0)
    requires pick2 == RouletteFrom(parentdict, Spin(parentdict, d.pick2), 0)
    ensures pick1.Some? && pick1.value < |parentlist|
    ensures pick2.Some? && pick2.value < |parentlist|
    ensures Child(points, parentlist, parentdict, d)
      == Offspring(points, parentlist[pick1.value], parentlist[pick2.value], d)
  {
    RouletteChooses(parentdict, d.pick1, Spin(parentdict, d.pick1));
    RouletteChooses(parentdict, d.pick2, Spin(parentdict, d.pick2));
  }

  /** The generation the list of draws breeds from `parentlist`: child `k` is bred with draw `k`. */
  function Generation(points: seq<Point>, parentlist: seq<seq<Point>>, parentdict: map<nat, real>,
                      draws: seq<Draws>): (r: seq<seq<Point>>)
    requires NoDuplicates(points) && IsPopulationOf(parentlist, points)
    requires DenseKeys(parentdict) && |parentdict| == |parentlist| >= 1 && AllPositive(parentdict)
    requires AllValidDraws(draws, |points|)
    ensures |r| == |draws| && IsPopulationOf(r, points)
  {
    seq(|draws|, k requires 0 <= k < |draws| => Child(points, parentlist, parentdict, draws[k]))
  }

  /** The children of one pass of the generation loop, one per draw. */
  method BreedGeneration(points: seq<Point>, parentlist: seq<seq<Point>>, parentdict: map<nat, real>,
                         draws: seq<Draws>)
    returns (newgen: seq<seq<Point>>)
    requires |points| >= 2 && NoDuplicates(points)
    requires IsPopulationOf(parentlist, points)
    requires DenseKeys(parentdict) && |parentdict| == |parentlist| >= 1
    requires AllPositive(parentdict)
    requires AllValidDraws(draws, |points|)
    ensures newgen == Generation(points, parentlist, parentdict, draws)
  {
    newgen := [];
    var k := 0;
    while k < |draws|
      invariant 0 <= k <= |draws| && |newgen| == k
      invariant forall q :: 0 <= q < k ==> newgen[q] == Child(points, parentlist, parentdict, draws[q])
    {
      assert ValidDraws(draws[k], |points|);
      var p1, p2, tour := Breed(points, parentlist, parentdict, draws[k]);
      newgen := newgen + [tour];
      k := k + 1;
    }
  }

  /** One pass of the generation loop: `numpop` children, each the mutated crossover of two
      roulette-selected parents, then the evaluation of the new generation, which updates the
      record. Every child is again a tour of the points. */
  method NextGeneration(record: BestRecord, points: seq<Point>, parentlist: seq<seq<Point>>,
                        parentdict: map<nat, real>, numpop: nat, draws: seq<Draws>)
    returns (newgen: seq<seq<Point>>, newfitdict: map<nat, real>)
    requires record.Valid()
    requires |points| >= 2 && NoDuplicates(points) && ToursScorable(record.dist, points)
    requires |parentlist| >= 1 && IsPopulationOf(parentlist, points)
    requires AllScorable(record.dist, parentlist)
    requires parentdict == FitnessMap(record.dist, parentlist, |parentlist|)
    requires numpop >= 1 && |draws| == numpop && AllValidDraws(draws, |points|)
    modifies record
    ensures record.Valid() && record.shortestDistance > 0.0
    ensures |newgen| == numpop && IsPopulationOf(newgen, points)
    ensures (FitnessMapIsFitness(record.dist, parentlist, |parentlist|);
             newgen == Generation(points, parentlist, parentdict, draws))
    ensures AllScorable(record.dist, newgen)
    ensures newfitdict == FitnessMap(record.dist, newgen, |newgen|)
    ensures Best(record.shortestDistance, record.bestRoute)
      == Update(Best(old(record.shortestDistance), old(record.bestRoute)), LocalBest(record.dist, newgen))
    ensures
      var localRoute := newgen[BestIndex(record.dist, newgen, |newgen|)];
      var localBest := TourLength(record.dist, localRoute);
      if old(record.shortestDistance) == 0.0 || localBest < old(record.shortestDistance) then
        record.shortestDistance == localBest && record.bestRoute == localRoute
      else
        record.shortestDistance == old(record.shortestDistance) && record.bestRoute == old(record.bestRoute)
    ensures old(record.shortestDistance) != 0.0 ==> record.shortestDistance <= old(record.shortestDistance)
    ensures forall k :: 0 <= k < numpop ==> record.shortestDistance <= TourLength(record.dist, newgen[k])
  {
    FitnessMapIsFitness(record.dist, parentlist, |parentlist|);
    newgen := BreedGeneration(points, parentlist, parentdict, draws);
    PopulationIsScorable(record.dist, newgen, points);
    newfitdict := record.EvalFitness(newgen);
  }

  /** No tour of `pop` is shorter than `len`. */
  ghost predicate NoShorterThan(dist: Distance, len: real, pop: seq<seq<Point>>) {
    forall k :: 0 <= k < |pop| && |pop[k]| >= 1 ==> len <= TourLength(dist, pop[k])
  }

  /** No tour of any generation of `history` is shorter than `len`. */
  ghost predicate NoShorterIn(dist: Distance, len: real, history: seq<seq<seq<Point>>>) {
    forall h :: 0 <= h < |history| ==> NoShorterThan(dist, len, history[h])
  }

  /** `route` is a member of some generation of `history`. */
  ghost predicate Appears(route: seq<Point>, history: seq<seq<seq<Point>>>) {
    exists h :: 0 <= h < |history| && route in history[h]
  }

  /** Every generation of `history` has `numpop` tours of the points. */
  ghost predicate IsHistoryOf(history: seq<seq<seq<Point>>>, points: seq<Point>, numpop: nat) {
    forall h :: 0 <= h < |history| ==> |history[h]| == numpop && IsPopulationOf(history[h], points)
  }

  /** Appending a generation of `numpop` tours of the points keeps a history of such generations. */
  lemma {:induction false} HistoryOfExtends(history: seq<seq<seq<Point>>>, newgen: seq<seq<Point>>,
                                            points: seq<Point>, numpop: nat)
    requires IsHistoryOf(history, points, numpop)
    requires |newgen| == numpop && IsPopulationOf(newgen, points)
    ensures IsHistoryOf(history + [newgen], points, numpop)
  {
    var extended := history + [newgen];
    forall h | 0 <= h < |extended|
      ensures |extended[h]| == numpop && IsPopulationOf(extended[h], points)
    {
      if h < |history| {
        assert extended[h] == history[h];
      }
    }
  }

  /** A record that was the shortest of the past generations, and that one evaluation leaves no
      longer and no longer than any tour of the new generation, is the shortest of them all; it
      is still a tour that appeared, whether it was kept or taken from the new generation. */
  lemma {:induction false} ExtendHistory(dist: Distance, history: seq<seq<seq<Point>>>, newgen: seq<seq<Point>>,
                                         oldLen: real, oldRoute: seq<Point>, newLen: real, newRoute: seq<Point>)
    requires NoShorterIn(dist, oldLen, history) && Appears(oldRoute, history)
    requires newLen <= oldLen && NoShorterThan(dist, newLen, newgen)
    requires newRoute == oldRoute || newRoute in newgen
    ensures NoShorterIn(dist, newLen, history + [newgen]) && Appears(newRoute, history + [newgen])
  {
    var extended := history + [newgen];
    forall h | 0 <= h < |extended|
      ensures NoShorterThan(dist, newLen, extended[h])
    {
      if h < |history| {
        assert extended[h] == history[h] && NoShorterThan(dist, oldLen, history[h]);
      }
    }
    if newRoute in newgen {
      assert extended[|history|] == newgen;
    } else {
      var h :| 0 <= h < |history| && oldRoute in history[h];
      assert extended[h] == history[h];
    }
  }

  /** One pass of the generation loop as a value: the generation bred from `parents` on their
      fitness dictionary under the draws of the pass. */
  ghost function Pass(dist: Distance, points: seq<Point>, parents: seq<seq<Point>>, draws: seq<Draws>)
    : (r: seq<seq<Point>>)
    requires |points| >= 2 && NoDuplicates(points) && ToursScorable(dist, points)
    requires |parents| >= 1 && IsPopulationOf(parents, points)
    requires |draws| >= 1 && AllValidDraws(draws, |points|)
    ensures |r| == |draws| && IsPopulationOf(r, points)
  {
    PopulationIsScorable(dist, parents, points);
    FitnessMapIsFitness(dist, parents, |parents|);
    Generation(points, parents, FitnessMap(dist, parents, |parents|), draws)
  }

  /** Every generation of `gens` is non-empty and holds non-empty tours, so `eval_fitness` can
      score it. */
  ghost predicate AllEvaluable(gens: seq<seq<seq<Point>>>) {
    forall h :: 0 <= h < |gens| ==> |gens[h]| >= 1 && forall k :: 0 <= k < |gens[h]| ==> |gens[h][k]| >= 1
  }

  /** The local best of each generation of `gens`, in order. */
  ghost function LocalBests(dist: Distance, gens: seq<seq<seq<Point>>>): (r: seq<Best>)
    requires AllEvaluable(gens)
    ensures |r| == |gens|
  {
    seq(|gens|, h requires 0 <= h < |gens| => LocalBest(dist, gens[h]))
  }

  /** The record after `eval_fitness` has applied its rule to the local bests `locals` in turn,
      starting from `b`. */
  function RecordAfter(b: Best, locals: seq<Best>): Best
    decreases |locals|
  {
    if locals == [] then b else Update(RecordAfter(b, locals[..|locals| - 1]), locals[|locals| - 1])
  }

  /** A history of non-empty generations of tours of non-empty point lists can be scored, from
      its first generation or from its second. */
  lemma HistoryIsEvaluable(history: seq<seq<seq<Point>>>, points: seq<Point>, numpop: nat)
    requires IsHistoryOf(history, points, numpop) && numpop >= 1 && |points| >= 1
    ensures AllEvaluable(history)
    ensures |history| >= 1 ==> AllEvaluable(history[1..])
  {
    forall h | 0 <= h < |history|
      ensures |history[h]| >= 1 && forall k :: 0 <= k < |history[h]| ==> |history[h][k]| >= 1
    {
      assert IsPopulationOf(history[h], points);
    }
  }

  /** Scoring one more generation applies `eval_fitness`'s rule once more, to its local best. */
  lemma RecordAfterAppend(dist: Distance, b: Best, gens: seq<seq<seq<Point>>>, gen: seq<seq<Point>>)
    requires AllEvaluable(gens)
    requires |gen| >= 1 && forall k :: 0 <= k < |gen| ==> |gen[k]| >= 1
    ensures AllEvaluable(gens + [gen])
    ensures LocalBests(dist, gens + [gen]) == LocalBests(dist, gens) + [LocalBest(dist, gen)]
    ensures RecordAfter(b, LocalBests(dist, gens + [gen]))
      == Update(RecordAfter(b, LocalBests(dist, gens)), LocalBest(dist, gen))
  {
    var locals := LocalBests(dist, gens + [gen]);
    assert locals[..|gens|] == LocalBests(dist, gens);
  }

  /** The local bests of all generations but the first are the local bests without the first. */
  lemma LocalBestsTail(dist: Distance, gens: seq<seq<seq<Point>>>)
    requires |gens| >= 1 && AllEvaluable(gens)
    ensures AllEvaluable(gens[1..]) && LocalBests(dist, gens)[1..] == LocalBests(dist, gens[1..])
  {
    assert AllEvaluable(gens[1..]);
  }

  /** Dropping the first element commutes with appending one at the end. */
  lemma DropFirstOfAppend<T>(s: seq<T>, x: T)
    requires |s| >= 1
    ensures (s + [x])[1..] == s[1..] + [x]
  {
  }

  /** Applying the rule to a run of local bests from `b` is applying it to the first one from
      `b` and to the rest from the record that leaves: the recursion from the last element
      agrees with the loop's order. */
  lemma {:induction false} RecordAfterFirst(b: Best, locals: seq<Best>)
    requires |locals| >= 1
    ensures RecordAfter(b, locals) == RecordAfter(Update(b, locals[0]), locals[1..])
    decreases |locals|
  {
    var last := |locals| - 1;
    if last > 0 {
      var init := locals[..last];
      assert init[0] == locals[0];
      RecordAfterFirst(b, init);
      assert locals[1..][..last - 1] == init[1..];
    }
  }

  /** The generations the loop evaluates, from `gen0` under the draws of each pass: `gen0`, then
      for each pass the generation bred from the one before it on its fitness dictionary. */
  ghost function Generations(dist: Distance, points: seq<Point>, gen0: seq<seq<Point>>,
                             generations: seq<seq<Draws>>): (r: seq<seq<seq<Point>>>)
    requires |points| >= 2 && NoDuplicates(points) && ToursScorable(dist, points)
    requires |gen0| >= 1 && IsPopulationOf(gen0, points)
    requires forall g :: 0 <= g < |generations| ==>
      |generations[g]| >= 1 && AllValidDraws(generations[g], |points|)
    ensures |r| == |generations| + 1 && r[0] == gen0
    ensures |r[|generations|]| >= 1 && IsPopulationOf(r[|generations|], points)
    decreases |generations|
  {
    if generations == [] then [gen0]
    else
      var before := Generations(dist, points, gen0, generations[..|generations| - 1]);
      before + [Pass(dist, points, before[|generations| - 1], generations[|generations| - 1])]
  }

  /** One more pass appends the generation bred from the last one. */
  lemma GenerationsStep(dist: Distance, points: seq<Point>, gen0: seq<seq<Point>>,
                        generations: seq<seq<Draws>>, g: nat)
    requires |points| >= 2 && NoDuplicates(points) && ToursScorable(dist, points)
    requires |gen0| >= 1 && IsPopulationOf(gen0, points)
    requires forall g :: 0 <= g < |generations| ==>
      |generations[g]| >= 1 && AllValidDraws(generations[g], |points|)
    requires g < |generations|
    ensures var before := Generations(dist, points, gen0, generations[..g]);
      Generations(dist, points, gen0, generations[..g + 1])
      == before + [Pass(dist, points, before[g], generations[g])]
  {
    var passes := generations[..g + 1];
    assert passes[..g] == generations[..g];
  }

  /** One application of the rule of `eval_fitness` to a set record: the record stays positive,
      never lengthens, ends no longer than any tour of the generation, and is either kept or
      taken from the generation. */
  lemma UpdateKeepsShortest(dist: Distance, points: seq<Point>, before: Best, gen: seq<seq<Point>>)
    requires ToursScorable(dist, points) && |gen| >= 1 && IsPopulationOf(gen, points)
    requires before.len > 0.0
    ensures AllScorable(dist, gen)
    ensures var after := Update(before, LocalBest(dist, gen));
      && 0.0 < after.len <= before.len
      && NoShorterThan(dist, after.len, gen)
      && (after.route == before.route || after.route in gen)
  {
    PopulationIsScorable(dist, gen, points);
    var b := BestIndex(dist, gen, |gen|);
    assert Scorable(dist, gen[b]);
  }

  /** The state of the generation loop after `g` passes from `gen0`: the history is the first
      `g + 1` generations the draws determine, every one numpop tours of the points, and the
      record `now` is what the rule of `eval_fitness` leaves from `start` after scoring every
      generation but the first; it is positive, no longer than any tour of the history, and one
      of them. */
  ghost predicate Progress(dist: Distance, points: seq<Point>, numpop: nat, gen0: seq<seq<Point>>,
                           generations: seq<seq<Draws>>, g: nat, history: seq<seq<seq<Point>>>,
                           start: Best, now: Best)
  {
    && |points| >= 2 && NoDuplicates(points) && ToursScorable(dist, points)
    && numpop >= 1 && |gen0| == numpop && IsPopulationOf(gen0, points)
    && (forall h :: 0 <= h < |generations| ==>
          |generations[h]| == numpop && AllValidDraws(generations[h], |points|))
    && g <= |generations|
    && |history| == g + 1 && history[0] == gen0
    && IsHistoryOf(history, points, numpop)
    && history == Generations(dist, points, gen0, generations[..g])
    && AllEvaluable(history[1..])
    && now == RecordAfter(start, LocalBests(dist, history[1..]))
    && now.len > 0.0 && NoShorterIn(dist, now.len, history) && Appears(now.route, history)
  }

  /** One pass of the loop keeps `Progress`: the history gains the generation bred from its last
      one, and the record takes one more step of the rule of `eval_fitness`. */
  lemma ProgressStep(dist: Distance, points: seq<Point>, numpop: nat, gen0: seq<seq<Point>>,
                     generations: seq<seq<Draws>>, g: nat, history: seq<seq<seq<Point>>>,
                     start: Best, before: Best, newgen: seq<seq<Point>>, after: Best)
    requires Progress(dist, points, numpop, gen0, generations, g, history, start, before)
    requires g < |generations|
    requires newgen == Pass(dist, points, history[g], generations[g])
    requires after == Update(before, LocalBest(dist, newgen))
    ensures Progress(dist, points, numpop, gen0, generations, g + 1, history + [newgen], start, after)
  {
    UpdateKeepsShortest(dist, points, before, newgen);
    ExtendHistory(dist, history, newgen, before.len, before.route, after.len, after.route);
    HistoryOfExtends(history, newgen, points, numpop);
    GenerationsStep(dist, points, gen0, generations, g);
    RecordAfterAppend(dist, start, history[1..], newgen);
    DropFirstOfAppend(history, newgen);
    assert (history + [newgen])[g + 1] == newgen;
  }

  /** Before the first pass: the history is the first generation alone, and a record that is
      positive, no longer than any of its tours and one of them has taken no step yet. */
  lemma ProgressStart(dist: Distance, points: seq<Point>, numpop: nat, gen0: seq<seq<Point>>,
                      generations: seq<seq<Draws>>, start: Best)
    requires |points| >= 2 && NoDuplicates(points) && ToursScorable(dist, points)
    requires numpop >= 1 && |gen0| == numpop && IsPopulationOf(gen0, points)
    requires forall h :: 0 <= h < |generations| ==>
      |generations[h]| == numpop && AllValidDraws(generations[h], |points|)
    requires start.len > 0.0 && NoShorterThan(dist, start.len, gen0) && start.route in gen0
    ensures Progress(dist, points, numpop, gen0, generations, 0, [gen0], start, start)
  {
    var history := [gen0];
    assert generations[..0] == [] && history[1..] == [];
    assert start.route in history[0];
  }

  /** The generation loop: `|generations|` passes, each replacing the parents by their
      children and evaluating them. The history is the generations the draws determine, and the
      record is what the rule of `eval_fitness` leaves after scoring each of them in turn: no
      longer than any tour evaluated so far, and one of them. */
  method Evolve(record: BestRecord, points: seq<Point>, gen0: seq<seq<Point>>, fitdict0: map<nat, real>,
                numpop: nat, generations: seq<seq<Draws>>)
    returns (ghost history: seq<seq<seq<Point>>>)
    requires record.Valid() && record.shortestDistance > 0.0
    requires |points| >= 2 && NoDuplicates(points) && ToursScorable(record.dist, points)
    requires numpop >= 1 && |gen0| == numpop && IsPopulationOf(gen0, points)
    requires AllScorable(record.dist, gen0) && fitdict0 == FitnessMap(record.dist, gen0, |gen0|)
    requires NoShorterThan(record.dist, record.shortestDistance, gen0) && record.bestRoute in gen0
    requires forall g :: 0 <= g < |generations| ==>
      |generations[g]| == numpop && AllValidDraws(generations[g], |points|)
    modifies record
    ensures record.Valid() && record.shortestDistance > 0.0
    ensures |history| == |generations| + 1 && history[0] == gen0 && IsHistoryOf(history, points, numpop)
    ensures history == Generations(record.dist, points, gen0, generations)
    ensures AllEvaluable(history[1..])
    ensures Best(record.shortestDistance, record.bestRoute)
      == RecordAfter(Best(old(record.shortestDistance), old(record.bestRoute)), LocalBests(record.dist, history[1..]))
    ensures NoShorterIn(record.dist, record.shortestDistance, history)
    ensures Appears(record.bestRoute, history)
  {
    var dist := record.dist;
    ghost var start := Best(record.shortestDistance, record.bestRoute);
    var parentlist := gen0;
    var parentdict := fitdict0;
    history := [gen0];
    var g := 0;
    ProgressStart(dist, points, numpop, gen0, generations, start);
    while g < |generations|
      invariant record.dist == dist && record.Valid()
      invariant Progress(dist, points, numpop, gen0, generations, g, history, start,
                         Best(record.shortestDistance, record.bestRoute))
      invariant parentlist == history[g] && |parentlist| >= 1 && IsPopulationOf(parentlist, points)
      invariant AllScorable(dist, parentlist) && parentdict == FitnessMap(dist, parentlist, |parentlist|)
    {
      ghost var before := Best(record.shortestDistance, record.bestRoute);
      var newgen, newfitdict := NextGeneration(record, points, parentlist, parentdict, numpop, generations[g]);
      ProgressStep(dist, points, numpop, gen0, generations, g, history, start, before, newgen,
                   Best(record.shortestDistance, record.bestRoute));
      history := history + [newgen];
      parentlist := newgen;
      parentdict := newfitdict;
      g := g + 1;
    }
    assert generations[..g] == generations;
  }

  /** The run after reading the points: the first generation from `initialize_pop`, its
      evaluation, then `numfit` passes of the generation loop. The record ends holding a tour
      no longer than any tour of any generation evaluated, and one of those tours. */
  method Run(dist: Distance, coordinates: array<Point>, numpop: nat, numfit: nat,
             shuffles: seq<seq<nat>>, generations: seq<seq<Draws>>)
    returns (record: BestRecord, ghost history: seq<seq<seq<Point>>>)
    requires coordinates.Length >= 2 && NoDuplicates(coordinates[..]) && ToursScorable(dist, coordinates[..])
    requires numpop >= 1 && |shuffles| == numpop && ShuffleSeries(shuffles, coordinates.Length)
    requires |generations| == numfit
    requires forall g :: 0 <= g < numfit ==>
      |generations[g]| == numpop && AllValidDraws(generations[g], coordinates.Length)
    modifies coordinates
    ensures fresh(record) && record.dist == dist && record.Valid()
    ensures |history| == numfit + 1 && IsHistoryOf(history, old(coordinates[..]), numpop)
    ensures forall k :: 0 <= k < numpop ==> history[0][k] == AfterShuffles(old(coordinates[..]), shuffles, k)
    ensures history == Generations(dist, old(coordinates[..]), history[0], generations)
    ensures AllEvaluable(history)
    ensures Best(record.shortestDistance, record.bestRoute) == RecordAfter(Best(0.0, []), LocalBests(dist, history))
    ensures coordinates[..] == AfterShuffles(old(coordinates[..]), shuffles, numpop)
    ensures record.shortestDistance > 0.0 && IsTourOf(record.bestRoute, old(coordinates[..]))
    ensures NoShorterIn(dist, record.shortestDistance, history)
    ensures Appears(record.bestRoute, history)
  {
    var points := coordinates[..];
    record := new BestRecord(dist);
    var gen0 := InitializePop(coordinates, numpop, shuffles);
    assert IsPopulationOf(gen0, points) by {
      forall k | 0 <= k < numpop
        ensures |gen0[k]| == |points|
      {
        assert |gen0[k]| == |multiset(gen0[k])|;
      }
    }
    PopulationIsScorable(dist, gen0, points);
    var fitdict := record.EvalFitness(gen0);
    history := Evolve(record, points, gen0, fitdict, numpop, generations);
    HistoryIsEvaluable(history, points, numpop);
    RecordAfterFirst(Best(0.0, []), LocalBests(dist, history));
    LocalBestsTail(dist, history);
    ghost var h :| 0 <= h < |history| && record.bestRoute in history[h];
  }
}
