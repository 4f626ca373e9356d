# A verified model of a genetic-algorithm TSP solver

`tsp_solver.py` searches for a short closed tour through a set of points read from a
TSPLIB `EUC_2D` file. It is a genetic algorithm:

- The first generation is built by copying the point list between in-place shuffles.
- Every tour gets a fitness of `1 / length`.
- Each later generation is bred from the previous one. Both parents are chosen by
  roulette-wheel selection. They are combined by order crossover, and the child has a 25%
  chance of a swap mutation.
- Two process-wide globals, `shortest_distance` and `best_route`, record the shortest tour
  any evaluated generation has produced.

This project models that engine in Dafny and proves what it promises:

- `total_distance` computes the cyclic tour length.
- Every generation consists of permutations of the input points.
- Roulette selection always picks a parent when the draw is below 1.
- Order crossover of two permutations is a permutation.
- Mutation exchanges exactly two positions.
- The global record is, after every evaluation, no longer than any tour evaluated so far,
  and is one of those tours.

Modules, one per file:

- `Tours` (`tours.dfy`): the point record, the distance function (any non-negative function
  of two points), and permutation predicates.
- `Geometry` (`geometry.dfy`): `total_distance` and the tour length it computes.
- `Population` (`population.dfy`): `random.shuffle` and `initialize_pop`.
- `Fitness` (`fitness.dfy`): `eval_fitness`, and the two globals as the class `BestRecord`.
- `Selection` (`selection.dfy`): `pick_parent`.
- `Reproduction` (`reproduction.dfy`): `crossover` and `mutate`.
- `Evolution` (`evolution.dfy`): the generation loop of the main block.

Randomness is an input. Each random draw the program makes is a parameter:
- the positions `random.shuffle` exchanges;
- the fraction `u` in [0, 1) that scales `random.uniform(0, totalfit)` to `u * totalfit`;
- the crossover cut points;
- the mutation coin and the two swap positions.

Every contract therefore holds for every possible outcome of the random generator.

## Model

| member | source | states |
|---|---|---|
| Geometry.TotalDistance | tsp_solver.py:35-44 | the loop's result is the cyclic tour length: the consecutive edges plus the closing edge from the first to the last point; it is 0 for a one-point list and never negative |
| Geometry.PathLengthMonotone | tsp_solver.py:41-42 | the running sum of the edge loop never decreases and is never negative |
| Geometry.TourLengthNonNegative | tsp_solver.py:35-44 | a tour length is never negative |
| Geometry.TourLengthPositive | tsp_solver.py:41-43 | a tour whose first edge is positive has positive length, so `1/dist` in the fitness is defined |
| Geometry.TourLengthIsCycleSum | tsp_solver.py:41-43 | for a symmetric distance the length of an n-point tour is the sum of its n cycle edges, each point to its successor and the last back to the first |
| Geometry.TourLengthRotate | tsp_solver.py:41-43 | for a symmetric distance, starting a tour one point later leaves its length unchanged |
| Tours.Swap | tsp_solver.py:115-117 | exchanging two positions puts each occupant in the other's place, keeps every other position, and keeps the multiset of points |
| Population.Shuffle | tsp_solver.py:51 | the in-place shuffle leaves the array equal to the Fisher-Yates shuffle of its old contents under the given draws |
| Population.AfterShuffles | tsp_solver.py:49-52 | after any number of shuffles the list is still a permutation of the original, of the same length |
| Population.InitializePop | tsp_solver.py:47-53 | member k is the copy taken after k shuffles, so member 0 is the list as passed in; every member is a permutation of the caller's list; the caller's list is left shuffled numpop times |
| Fitness.TourFitness | tsp_solver.py:60-61 | the fitness `1/dist` of a tour of positive length is positive |
| Fitness.FitnessMapIsFitness | tsp_solver.py:57-66 | the fitness dictionary has exactly the keys 0 .. n-1, and each value is 1 / length of that member, which is positive |
| Fitness.BestIndex | tsp_solver.py:62-69 | the strict `<` scan keeps the earliest member of minimum length: its length is at most every member's, and every earlier member is strictly longer |
| Fitness.ScanGeneration | tsp_solver.py:60-69 | the scan returns the generation's fitness dictionary and its earliest shortest member (`LocalBest`) with that member's length; the member belongs to the generation and is no longer than any member |
| Fitness.UpdateShortens | tsp_solver.py:72-77 | the update rule leaves a positive length; it never lengthens a set record; the result is no longer than any member of the generation; the result is either the incumbent or the generation's best |
| Fitness.BestRecord.constructor | tsp_solver.py:12-13 | the record starts unset: length 0 and an empty route |
| Fitness.BestRecord.EvalFitness | tsp_solver.py:56-79 | returns the fitness dictionary of the generation; the new record is `Update(old record, LocalBest(generation))`: it takes the generation's earliest shortest tour when the record was unset or that tour is strictly shorter, and on a tie the incumbent stays; afterwards the record is positive, no longer than any member, never longer than before, and its length is its route's length |
| Selection.PrefixSumMonotone | tsp_solver.py:85-87 | with non-negative fitness values the running sum `current` never decreases |
| Selection.SpinBelowTotal | tsp_solver.py:83-84 | a draw in [0, 1) scaled by a positive total fitness selects a point below the total |
| Selection.DrawBelowTotal | tsp_solver.py:83-84 | with positive fitness values and a draw below 1, the selected point lies below the total fitness |
| Selection.RouletteFromSelects | tsp_solver.py:85-89 | the in-order scan `RouletteFrom` returns the first key whose running sum exceeds `selected`, and returns nothing only when no running sum exceeds it |
| Selection.SelectsIsRoulette | tsp_solver.py:85-89 | the first crossing is unique: a scan started at or before the key that `Selects` returns exactly that key |
| Selection.RouletteChooses | tsp_solver.py:82-89 | with positive fitness values, a non-empty dictionary and a draw in [0, 1), the scan always returns a key, and that key is the first crossing |
| Selection.PickParent | tsp_solver.py:82-89 | the returned key is the scan `RouletteFrom` at the selected point: the first whose running sum exceeds it, with every earlier running sum not exceeding it; when no key is returned, no running sum exceeds it; with positive fitness values, a non-empty dictionary and a draw in [0, 1) a key is always returned |
| Reproduction.RemainingCounts | tsp_solver.py:101-102 | the points of b that are not in the block keep each occurrence of a point outside the block and none inside it |
| Reproduction.RemainingFrom | tsp_solver.py:101-105 | one step of the scan over b: a point inside the block is skipped, the first point outside it is the next point to place, and at the end of b nothing is left to place |
| Reproduction.NextOutside | tsp_solver.py:101-105 | the inner scan stops at the first index at or after `indexb` whose point of b is outside the block, or at the end of b; every skipped point is in the block |
| Reproduction.Crossover | tsp_solver.py:92-106 | the child equals the order-crossover specification `OrderCrossover`: the block a[start..end] in place, and the other slots from left to right take b's points outside the block in b's order; the child has a's length and keeps the block |
| Reproduction.RemainingComplementsBlock | tsp_solver.py:96-105 | when b is a permutation of duplicate-free a, the points b contributes plus the block are exactly a's points, so they fill exactly the slots outside the block |
| Reproduction.CrossoverIsPermutation | tsp_solver.py:92-106 | when b is a permutation of duplicate-free a, every slot of the child is filled; the child is b's remaining points with the block inserted at `start`; it is a duplicate-free permutation of a |
| Reproduction.Mutate | tsp_solver.py:109-118 | returns a copy of the same length and the same points; below the probability 0.25 the occupants of positions i and j are exchanged and every other position is unchanged, otherwise the copy equals the input |
| Evolution.TourOfSeparatedIsScorable | tsp_solver.py:60-66 | a permutation of two or more distinct points at positive distances has positive length, so its fitness is defined |
| Evolution.SeparatedToursScorable | tsp_solver.py:60-66 | distinct points at positive distances meet `ToursScorable`: every tour of them has a defined fitness |
| Evolution.PopulationIsScorable | tsp_solver.py:151 | when every tour of the points has positive length, every member of a generation of permutations of them has a defined fitness |
| Evolution.OffspringIsTour | tsp_solver.py:148-149 | the mutated crossover of two permutations of the points is again a permutation of the points, of the same length |
| Evolution.Procreate | tsp_solver.py:148-149 | crossover followed by mutation computes `Offspring`, the order-crossover child with the two positions exchanged when the coin is below 0.25 |
| Evolution.Child | tsp_solver.py:146-149 | the child one set of draws breeds from two roulette-chosen parents is a permutation of the points, of the same length |
| Evolution.ChildOfChosen | tsp_solver.py:146-149 | when both roulette scans are taken on the parents' fitness dictionary, both return a key that indexes the parent list, and the child of the draws is the `Offspring` of those two parents |
| Evolution.Breed | tsp_solver.py:146-149 | each parent index is the roulette scan's choice for its draw and indexes the parent list; the child is the `Offspring` of those two parents, which is the `Child` of the draws |
| Evolution.Generation | tsp_solver.py:144-150 | a generation bred from a population of the points has one child per draw, and every child is a permutation of the points |
| Evolution.BreedGeneration | tsp_solver.py:144-150 | the loop builds the `Generation` of the draws: child k is the `Child` bred under draw k, in order |
| Evolution.NextGeneration | tsp_solver.py:144-153 | the new generation is the `Generation` of the draws on the parents' fitness dictionary: numpop permutations of the points, each with a defined fitness; the new dictionary is its fitness map; the record becomes `Update(old record, LocalBest(new generation))`, the rule of `eval_fitness`, and stays positive |
| Evolution.Pass | tsp_solver.py:144-153 | one pass breeds, on the fitness dictionary of the parents, one tour of the points per draw |
| Evolution.Generations | tsp_solver.py:143-153 | the generations the draws determine: one more than the passes, the first is the first generation, and the last is a non-empty population of the points |
| Evolution.GenerationsStep | tsp_solver.py:143-153 | a further pass appends exactly the `Pass` bred from the last generation, and changes none of the earlier ones |
| Evolution.HistoryOfExtends | tsp_solver.py:150-152 | appending a generation of numpop permutations of the points keeps every generation of the history such a population |
| Evolution.HistoryIsEvaluable | tsp_solver.py:143-152 | every generation of a history of non-empty populations of points is non-empty with non-empty tours, so each has a `LocalBest` |
| Evolution.UpdateKeepsShortest | tsp_solver.py:151 | evaluating a generation of tours of the points keeps a positive record positive, never longer, no longer than any new member, and either the incumbent or a new member |
| Evolution.RecordAfterAppend | tsp_solver.py:143-152 | one more generation appends its `LocalBest` to the sequence of per-generation bests, and the folded record is the `Update` of the previous fold by it |
| Evolution.LocalBestsTail | tsp_solver.py:143-152 | dropping the first generation drops exactly its `LocalBest` from the per-generation bests |
| Evolution.RecordAfterFirst | tsp_solver.py:138-152 | folding the update over the bests of all generations equals first updating by the first generation's best, then folding over the rest: the evaluation of the first generation and those of the loop apply one rule |
| Evolution.ProgressStart | tsp_solver.py:138-143 | before the first pass the history is the first generation alone, the record fold over no generations is the incoming record, and the record is no longer than any tour of the first generation and one of them |
| Evolution.ProgressStep | tsp_solver.py:143-153 | one pass keeps the loop's state tied down: the history extended by the `Pass` is the `Generations` of one more pass, the record is the fold of `Update` over one more `LocalBest`, and it stays positive, no longer than every tour so far, and one of them |
| Evolution.ExtendHistory | tsp_solver.py:143-153 | if the record was no longer than every past tour and was one of them, then one more evaluation, which never lengthens it and leaves it no longer than the new generation, keeps both properties for the extended history |
| Evolution.Evolve | tsp_solver.py:143-153 | the history is exactly the `Generations` the draws determine from the first generation, each numpop permutations of the points; the record is `RecordAfter` of the incoming record over the `LocalBest` of each later generation in order, so on a tie the earlier record stays and within a generation the earliest shortest member wins; it is positive, no longer than any tour of any generation, and one of them |
| Evolution.Run | tsp_solver.py:134-153 | member k of the first generation is the copy `initialize_pop` takes after k shuffles; the history is exactly the `Generations` the draws determine from it; the record is `RecordAfter` of the unset record over the `LocalBest` of every generation, the first included; it ends as a permutation of the input that is no longer than any tour evaluated in the run, and is one of those tours; the point array is left as the input shuffled numpop times |

## Left out

- Reading the TSPLIB file (`read`), the command-line options, and writing `solution.csv`
  and the printed length are I/O. The model starts from the list of points and ends with
  the record.
- `distance` is the Euclidean formula over floating-point numbers. The model keeps it
  abstract as any non-negative function of two points. Where a result needs positive tour
  lengths, it asks that every tour of the points have positive length (`ToursScorable`).
  Distinct points at positive distance (`Separated`) are one sufficient condition, proved by
  `Evolution.SeparatedToursScorable`. Where it is about
  cycles, it asks for a symmetric distance (`Symmetric`).
- Floating-point arithmetic is modelled by Dafny's exact `real`. Rounding is not modelled,
  and neither are its consequences:
  - `random.uniform(0, totalfit)` can return `totalfit` itself through rounding. There the
    source's loop can fall through. `Selection.PickParent` returns `None` on that path, and
    every contract covers it. A clamping variant would return the last key; the code does
    not, and neither does the model.
  - The generation loop only draws `u` in [0, 1), where a key is proved to be returned.
- Random draws are parameters and are not distributions.
  - `random.shuffle` is modelled as the Fisher-Yates algorithm it uses, over caller-supplied
    exchange positions.
  - Nothing about uniformity or probability is stated.
- `Fitness.BestRecord.EvalFitness` requires every tour length to be positive. The source
  divides by the length and raises `ZeroDivisionError` for a one-point tour. A variant could
  give such a tour a sentinel fitness; the code has none, and neither does the model. The
  generation step takes positivity from `ToursScorable`, so it never needs the one-point case.
- `Fitness.BestRecord.EvalFitness` and `Evolution.Run` require a non-empty population. For
  `numpop = 0` the source raises `IndexError` at `poplist[0]` (tsp_solver.py:60, reached from
  tsp_solver.py:138).
- `Geometry.TotalDistance` requires a non-empty list. The source raises `IndexError` on an
  empty one.
- `Reproduction.Crossover` takes its cut points as parameters instead of drawing them. The
  inner `for j` scan with its `break` is the separate method `Reproduction.NextOutside`. The
  `0` placeholder of an empty slot is `None` in a `seq<Option<Point>>`. The Python list
  `child` is a local sequence rather than an array.
- `Reproduction.Crossover` does not itself state that the child is a permutation. That
  property is stated about the specification `OrderCrossover` by
  `Reproduction.CrossoverIsPermutation`, and callers apply it.
- `Reproduction.Mutate` takes its coin and both positions as parameters. The source draws
  the positions only when the coin is below the probability.
- `Evolution.NextGeneration`, `Evolution.Evolve` and `Evolution.Run` take the draws of each
  generation as parameters, `Draws` per child. `Evolution.Evolve` and `Evolution.Run` return a
  ghost history of every generation, which exists to state their postconditions. The source
  keeps only the current `parentlist`; the postconditions equate the history with
  `Generations`, the generations the draws determine.
- The two globals `shortest_distance` and `best_route` are the fields of one `BestRecord`
  object, passed to the code that updates them, instead of module-level state.
- `Evolution.Run` requires distinct point records (`NoDuplicates`) and every tour of them to
  have positive length (`ToursScorable`). With a repeated record, order crossover can leave a
  `0` placeholder in the child; the next `total_distance` then indexes into that integer and
  the source raises `TypeError` (tsp_solver.py:41-42). With a tour of length 0 the source
  raises `ZeroDivisionError` at `1/dist` (tsp_solver.py:61 or tsp_solver.py:66). Neither
  failure is modelled.
- A child with a `0` placeholder cannot arise from two permutations of distinct points,
  which is proved. The model therefore never builds such a child. The helper `Unwrap`, which reads a complete child as a
  tour, requires a complete child.
