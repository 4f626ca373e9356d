/** Roulette-wheel selection of a parent index. */
module Selection {
  import opened Tours

  /** The keys of `m` are exactly `0 .. |m| - 1`; the fitness dictionary is filled in that
      order, so it is also the order in which its items are visited. */
  ghost predicate DenseKeys(m: map<nat, real>) {
    forall k: nat :: k in m <==> k < |m|
  }

  /** Every fitness value is positive. */
  ghost predicate AllPositive(m: map<nat, real>) {
    forall q :: q in m ==> m[q] > 0.0
  }

  /** The sum of the fitness values of the first `k` keys. */
  function PrefixSum(m: map<nat, real>, k: nat): real
    requires forall j: nat :: j < k ==> j in m
  {
    if k == 0 then 0.0 else PrefixSum(m, k - 1) + m[k - 1]
  }

  /** The total fitness of the population, `sum(popdict.values())`. */
  function TotalFitness(m: map<nat, real>): real
    requires DenseKeys(m)
  {
    PrefixSum(m, |m|)
  }

  /** The point on the wheel that the draw `u` in [0, 1) selects: `random.uniform(0, totalfit)`
      as `u` times the total fitness. */
  function Spin(m: map<nat, real>, u: real): real
    requires DenseKeys(m)
  {
    u * TotalFitness(m)
  }

  /** With non-negative values, a longer prefix never sums to less. */
  lemma {:induction false} PrefixSumMonotone(m: map<nat, real>, j: nat, k: nat)
    requires DenseKeys(m) && j <= k <= |m|
    requires forall q :: q in m ==> m[q] >= 0.0
    ensures PrefixSum(m, j) <= PrefixSum(m, k)
  {
    if j < k {
      PrefixSumMonotone(m, j, k - 1);
    }
  }

  /** A draw below 1 selects a point below a positive total. */
  lemma SpinBelowTotal(m: map<nat, real>, u: real)
    requires DenseKeys(m) && 0.0 <= u < 1.0 && TotalFitness(m) > 0.0
    ensures Spin(m, u) < TotalFitness(m)
  {
    var total := TotalFitness(m);
    assert total - u * total == (1.0 - u) * total;
  }

  /** With positive fitness values and a draw `u` below 1, the point `selected`, `u` times the
      total fitness, lies below the total. */
  lemma DrawBelowTotal(m: map<nat, real>, u: real, selected: real)
    requires DenseKeys(m) && selected == Spin(m, u)
    ensures AllPositive(m) && |m| >= 1 && 0.0 <= u < 1.0 ==> selected < TotalFitness(m)
  {
    if AllPositive(m) && |m| >= 1 && 0.0 <= u < 1.0 {
      PrefixSumMonotone(m, 1, |m|);
      SpinBelowTotal(m, u);
    }
  }

  /** Key `k` is the roulette choice for the point `selected` on the wheel: the first key whose
      running sum exceeds it. */
  ghost predicate Selects(m: map<nat, real>, selected: real, k: nat)
    requires DenseKeys(m)
  {
    && k < |m|
    && selected < PrefixSum(m, k + 1)
    && forall j :: 1 <= j <= k ==> PrefixSum(m, j) <= selected
  }

  /** The roulette choice at the point `selected`, scanning the keys from `k` on in order: the
      first key whose running sum exceeds `selected`, or None when no running sum does. */
  function RouletteFrom(m: map<nat, real>, selected: real, k: nat): Option<nat>
    requires DenseKeys(m) && k <= |m|
    decreases |m| - k
  {
    if k == |m| then None
    else if selected < PrefixSum(m, k + 1) then Some(k)
    else RouletteFrom(m, selected, k + 1)
  }

  /** A scan that has passed keys `0 .. k - 1` without crossing `selected` returns the first
      crossing key, and returns None only when no running sum exceeds `selected`. */
  lemma {:induction false} RouletteFromSelects(m: map<nat, real>, selected: real, k: nat)
    requires DenseKeys(m) && k <= |m|
    requires forall j :: 1 <= j <= k ==> PrefixSum(m, j) <= selected
    ensures match RouletteFrom(m, selected, k)
      case Some(p) => Selects(m, selected, p)
      case None => forall j :: 1 <= j <= |m| ==> PrefixSum(m, j) <= selected
    decreases |m| - k
  {
    if k < |m| && PrefixSum(m, k + 1) <= selected {
      RouletteFromSelects(m, selected, k + 1);
    }
  }

  /** The first crossing is unique: a scan that starts at or before a key that `Selects`
      returns that key. Together with `RouletteFromSelects`, the scan from 0 returns `p` exactly
      when `p` is the first crossing. */
  lemma {:induction false} SelectsIsRoulette(m: map<nat, real>, selected: real, p: nat, k: nat)
    requires DenseKeys(m) && Selects(m, selected, p) && k <= p
    ensures RouletteFrom(m, selected, k) == Some(p)
    decreases p - k
  {
    if k < p {
      assert PrefixSum(m, k + 1) <= selected;
      SelectsIsRoulette(m, selected, p, k + 1);
    }
  }

  /** With positive fitness values, a non-empty wheel and a draw `u` in [0, 1), the roulette
      always chooses a key, and that key is the first crossing. */
  lemma RouletteChooses(m: map<nat, real>, u: real, selected: real)
    requires DenseKeys(m) && AllPositive(m) && |m| >= 1 && 0.0 <= u < 1.0
    requires selected == Spin(m, u)
    ensures RouletteFrom(m, selected, 0).Some?
    ensures Selects(m, selected, RouletteFrom(m, selected, 0).value)
  {
    RouletteFromSelects(m, selected, 0);
    DrawBelowTotal(m, u, selected);
  }

  /** `pick_parent`: the draw `u` in [0, 1) scales the total fitness to `selected`, as
      `random.uniform(0, totalfit)` does; the result is the first key whose running sum
      exceeds `selected`, or None when no running sum does (the loop falls through). */
  method PickParent(popdict: map<nat, real>, u: real) returns (key: Option<nat>)
    requires DenseKeys(popdict)
    ensures key == RouletteFrom(popdict, Spin(popdict, u), 0)
    ensures match key
      case Some(k) => Selects(popdict, Spin(popdict, u), k)
      case None =>
        forall j :: 1 <= j <= |popdict| ==> PrefixSum(popdict, j) <= Spin(popdict, u)
    ensures AllPositive(popdict) && |popdict| >= 1 && 0.0 <= u < 1.0 ==> key.Some?
  {
    var totalfit := TotalFitness(popdict);
    var selected := u * totalfit;
    assert selected == Spin(popdict, u);
    var current := 0.0;
    var k := 0;
    while k < |popdict|
      invariant 0 <= k <= |popdict|
      invariant current == PrefixSum(popdict, k)
      invariant forall j :: 1 <= j <= k ==> PrefixSum(popdict, j) <= selected
      invariant RouletteFrom(popdict, selected, k) == RouletteFrom(popdict, selected, 0)
    {
      current := current + popdict[k];
      if current > selected {
        return Some(k);
      }
      k := k + 1;
    }
    if |popdict| >= 1 {
      assert totalfit == PrefixSum(popdict, |popdict|) <= selected;
    }
    DrawBelowTotal(popdict, u, selected);
    return None;
  }
}
