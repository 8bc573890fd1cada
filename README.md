# pygeneticoptimizer in Dafny

A Dafny model of the genetic string optimizer of pygeneticoptimizer. The
optimizer evolves a population of random strings towards a target string.
Each generation it picks parents by fitness-weighted roulette selection,
mutates them one character at a time, crosses them over at a random point,
and scores the children. A child that equals the target ends the run. Two
fitness functions are modelled: the summed character-code distance of
`GeneticOptimizer` and the Levenshtein edit distance of
`LevenshteinOptimizer`, both turned into `1 / (1 + distance)`. The model
also covers the command-line validators `int_ge_than_x`, `int_ge_two` and
`int_ge_zero`.

Modules, one per file:

- `wrappers.dfy` (`Wrappers`): `Option` and `Result`.
- `genes.dfy` (`Genes`): genomes and random draws. Covers `_random_char`, the initial population, the per-position rule of `_random_mutate`, and `_crossover`.
- `fitness.dfy` (`Scoring`): the two fitness functions and the edit-distance table.
- `selection.dfy` (`Selection`): `_weighted_choice` as a function of the drawn value.
- `evolution.dfy` (`Evolution`): `optimize` as a function from the optimizer's fields to its final fields and result, with the lemmas about what a run returns.
- `optimizer.dfy` (`Optimizer`): the optimizer object. It is a class whose methods update its fields and loop as the Python methods do. Each method is proved to compute the function that specifies it.
- `argtypes.dfy` (`ArgTypes`): Python's `int()` on decimal strings, and the validators.

How the model handles things the Python code leaves implicit:

- **Randomness.** Python's global generator becomes a stream `rand: nat -> Draw` that the optimizer holds. A field `drawn` counts the draws used so far. `randrange(lo, hi)` is `lo` plus the draw's `bits` reduced modulo `hi - lo`. `uniform(0, t)` is `t` times the draw's `unit`, a real in `[0, 1)`. Every draw is arbitrary, so any value the Python call can return is the result of some draw.
- **Draw order.** The Python code draws in this order:
  - the initial population, `dna_size` draws per genome;
  - per pair, two selections;
  - two mutations, each taking one roll per position, plus a character draw at each position whose roll is 1;
  - one crossover.

  The model keeps this order but always takes the character draw, so each mutation uses two draws per position. The "Optimizer.GeneticOptimizer.RandomMutate" line under "## Left out" says what that changes.
- **Exceptions.** They become `Err` values:
  - `randrange(0, 0)` in `_crossover` for an empty target is `EmptyRange`;
  - `_levenshtein` of an empty string is `UnboundLocal`, because its final `dist[row][col]` reads loop variables that were never bound.
- **One class for two.** `GeneticOptimizer` and its subclass `LevenshteinOptimizer` become one class. Its `kind` field selects the fitness function.

Where the documentation and the code disagree, the model follows the code:

- `_random_char` says "between ASCII decimal 32 and 126", but `randrange(32, 126)` never yields 126 (`'~'`). The model draws codes 32 to 125. `Evolution.OptimizedNeverReaches` proves that a target containing `'~'` is never reached.
- The constructor does not validate its arguments. An empty target, or a population size below 2, is accepted and behaves as the code makes it behave.
- An odd population size breeds `2 * floor(n / 2)` children.

## Model

| member | source | states |
|---|---|---|
| Genes.RandRange | optimizer/genetic_optimizer.py:56 | `randrange(lo, hi)` lies in `[lo, hi)`: the upper bound is exclusive |
| Genes.RandRangeOnto | optimizer/genetic_optimizer.py:56 | every value of `[lo, hi)` is produced by some draw |
| Genes.Uniform | optimizer/genetic_optimizer.py:64 | `uniform(0, total)` with a positive total lies in `[0, total)` |
| Genes.RandomChar | optimizer/genetic_optimizer.py:47-52 | `_random_char` yields a character with code 32 to 125 |
| Genes.RandomCharExactRange | optimizer/genetic_optimizer.py:47-52 | a character can be drawn exactly when its code is 32 to 125; 126 never is |
| Genes.RandomGenome | optimizer/genetic_optimizer.py:30-33 | a fresh genome has `dna_size` characters, all drawable |
| Genes.InitialPopulationShape | optimizer/genetic_optimizer.py:23-34 | `_init_population` yields `population_size` genomes (none for a negative size), each of length `dna_size` and drawable |
| Genes.MutatedPositions | optimizer/genetic_optimizer.py:36-45 | the mutant has length `dna_size`; a position keeps `dna[c]` unless its roll is 1, when it holds a drawable character |
| Genes.MutatedWithoutRollIsIdentity | optimizer/genetic_optimizer.py:40-44 | with no roll equal to 1 the mutant is the genome's first `dna_size` characters |
| Genes.MutatedDrawable | optimizer/genetic_optimizer.py:36-45 | mutating a drawable genome keeps it drawable |
| Genes.Crossover | optimizer/genetic_optimizer.py:54-57 | `_crossover` raises exactly when `dna_size` is 0 |
| Genes.CrossoverChildren | optimizer/genetic_optimizer.py:54-57 | for parents of length `dna_size > 0` there is a cut `p` in `[0, dna_size)` with children `mother[:p] + father[p:]` and `father[:p] + mother[p:]`, both of length `dna_size` |
| Genes.CrossoverAnyPoint | optimizer/genetic_optimizer.py:56 | every cut point in `[0, dna_size)` is chosen by some draw |
| Genes.SpliceInverse | optimizer/genetic_optimizer.py:57 | crossing the children over again at the same point gives back the parents |
| Genes.SpliceConservesCharacters | optimizer/genetic_optimizer.py:57 | the children hold exactly the parents' characters, as a multiset |
| Genes.SpliceDrawable | optimizer/genetic_optimizer.py:57 | children of drawable parents are drawable |
| Scoring.CharDistanceZeroIff | optimizer/genetic_optimizer.py:119-121 | the summed character distance over the first `k` positions is 0 exactly when those positions agree |
| Scoring.Min3 | optimizer/genetic_optimizer.py:173-175 | `min` of three is below each and equal to one of them |
| Scoring.EditDistance | optimizer/genetic_optimizer.py:157-175 | a table cell is non-negative when the costs are |
| Scoring.EditDistanceZeroIff | optimizer/genetic_optimizer.py:151-177 | with positive costs the distance of two prefixes is 0 exactly when they are equal |
| Scoring.EditDistanceLowerBound | optimizer/genetic_optimizer.py:151-177 | with unit costs the distance is at least the difference in length |
| Scoring.EditDistanceUpperBound | optimizer/genetic_optimizer.py:151-177 | with unit costs the distance is at most the longer length |
| Scoring.EditDistanceSymmetric | optimizer/genetic_optimizer.py:151-177 | with unit costs the distance from `s` to `t` equals the distance from `t` to `s`, for every pair of prefixes |
| Scoring.Reciprocal | optimizer/genetic_optimizer.py:122 | `1 / (1 + d)` lies in `(0, 1]` and is 1 exactly when `d` is 0 |
| Scoring.Fitness | optimizer/genetic_optimizer.py:115-133 | a fitness lies in `(0, 1]`; only the edit distance of an empty string raises |
| Scoring.FitnessIsOneIffTarget | optimizer/genetic_optimizer.py:115-133 | for a genome as long as the target, either fitness is 1 exactly when the genome is the target, and otherwise strictly between 0 and 1 |
| Scoring.LevenshteinFitnessIsOneIffEqual | optimizer/genetic_optimizer.py:128-133 | the edit-distance fitness of two non-empty strings of any lengths is 1 exactly when they are equal |
| Scoring.TargetFitnessIsOne | optimizer/genetic_optimizer.py:73 | `target_fitness`, the target scored against itself, is 1 |
| Selection.SelectedFromIsMember | optimizer/genetic_optimizer.py:65-67 | the walk returns one of the items |
| Selection.SelectedIsFirstExceeding | optimizer/genetic_optimizer.py:63-68 | `_weighted_choice` returns the item at the first index whose cumulative weight exceeds `n` |
| Selection.SelectedNoneIff | optimizer/genetic_optimizer.py:65-68 | it falls off the end (returns `None`) exactly when no cumulative weight exceeds `n` |
| Selection.SelectedIffBelowTotal | optimizer/genetic_optimizer.py:63-68 | with non-negative weights and `n >= 0`, an item is chosen exactly when `n` is below the total weight |
| Selection.DrawnSelectionSucceeds | optimizer/genetic_optimizer.py:63-68 | with positive weights, `n = uniform(0, total)` always selects an item |
| Selection.SelectionExample | tests/test_genetic_optimizer.py:19-22 | `n = 7.309414879714626` over weights 0.4, 12, 42 selects "test string" |
| Evolution.Pairs | optimizer/genetic_optimizer.py:78 | `int(population_size / 2)` pairs are bred: twice that is the size rounded down to even, and none for sizes below 2 |
| Evolution.PickIsMember | optimizer/genetic_optimizer.py:79-80 | each selected parent is a genome of the weighted population |
| Evolution.BreedPairShape | optimizer/genetic_optimizer.py:79-85 | one iteration raises exactly when the target is empty; otherwise both children have the target's length |
| Evolution.BreedFromRaises | optimizer/genetic_optimizer.py:78-86 | the breeding loop raises exactly when the target is empty and a pair is due, and then before appending any child |
| Evolution.BreedFromCount | optimizer/genetic_optimizer.py:78-86 | otherwise it appends exactly two children per pair |
| Evolution.BreedFromSized | optimizer/genetic_optimizer.py:78-86 | every child bred has the target's length |
| Evolution.BreedFromShape | optimizer/genetic_optimizer.py:78-86 | the three facts above together |
| Evolution.WeighShape | optimizer/genetic_optimizer.py:106-113 | `_weigh_population` pairs every genome, in order, with its fitness; it raises only for the edit distance of an empty target |
| Evolution.ScoreFromShape | optimizer/genetic_optimizer.py:87-97 | the scoring loop raises only for an empty target under the edit distance; run to the end it builds what `_weigh_population` builds; a return ends on an entry carrying the target fitness |
| Evolution.ScoreFromHit | optimizer/genetic_optimizer.py:89-97 | with target fitness 1 the loop returns early exactly when the target is among the genomes, and stops at the target |
| Evolution.Generation | optimizer/genetic_optimizer.py:75-100 | a generation that returns without an exception returns `(True, gen)`, its own number. One that goes on leaves a state the next generation can run from, with the same target fitness |
| Evolution.GenerationOutcome | optimizer/genetic_optimizer.py:75-97 | one generation raises exactly when the target is empty and a pair is due. It stops with `(True, gen)` exactly when a bred child is the target. Otherwise it goes on from `2 * Pairs` bred children, none the target, weighed as `_weigh_population` weighs them |
| Evolution.RunFromRaises | optimizer/genetic_optimizer.py:75-104 | the generations raise exactly when the target is empty, a pair is due and a generation is left |
| Evolution.Started | optimizer/genetic_optimizer.py:72-73 | the generations start from the weighed population and the target fitness; this fails exactly when weighing or scoring the target raises |
| Evolution.RunFromReached | optimizer/genetic_optimizer.py:75-97 | `(True, g)` names the generation that stopped the run: `gen <= g < max_generations`; every generation from `gen` to `g - 1` went on; generation `g`, run from the state they left, bred the target and returned this result and final state |
| Evolution.RunFromStoppedAt | optimizer/genetic_optimizer.py:75-97 | `(True, g)` is the result of generation `g` itself, run from the state the generations before it left, each of which went on |
| Evolution.AfterContinued | optimizer/genetic_optimizer.py:75-100 | when the run went on through `n` generations, each generation before the `n`-th went on too |
| Evolution.AfterMissed | optimizer/genetic_optimizer.py:75-97 | a generation the run went on from did not breed the target |
| Evolution.RunFromExhausted | optimizer/genetic_optimizer.py:75-104 | otherwise the result is `(False, max_generations)`. Every generation from `gen` on went on to the next, and the final state is the one the last left. That population has `2 * Pairs` genomes, none of them the target |
| Evolution.OptimizedFirstHit | optimizer/genetic_optimizer.py:70-104 | `optimize()` returns `(True, g)` only for the first generation that bred the target: generations `0` to `g - 1` bred no target, and generation `g` did. `(False, max_generations)` means all `max_generations` generations ran and none bred the target |
| Evolution.OptimizedOutcome | optimizer/genetic_optimizer.py:70-104 | `optimize()` raises exactly when the target is empty and either the edit distance scores it or a pair is bred. `(True, g)` has `0 <= g < max_generations` and the final population holds the target. `(False, max_generations)` otherwise. With no generation the initial population is never compared with the target |
| Evolution.BreedPairDrawable | optimizer/genetic_optimizer.py:79-85 | parents from drawable genomes breed drawable children |
| Evolution.BreedFromDrawable | optimizer/genetic_optimizer.py:78-86 | the breeding loop appends only drawable genomes |
| Evolution.GenerationDrawable | optimizer/genetic_optimizer.py:75-92 | a generation from drawable parents breeds and weighs only drawable genomes |
| Evolution.RunFromNeverReaches | optimizer/genetic_optimizer.py:75-104 | from drawable parents, a target with a character outside codes 32 to 125 is never reached |
| Evolution.OptimizedNeverReaches | optimizer/genetic_optimizer.py:70-104 | `optimize()` from a drawable population never reaches a target containing `'~'` or any other undrawable character |
| Optimizer.GeneticOptimizer.constructor | optimizer/genetic_optimizer.py:12-21 | `__init__` stores its arguments, sets `dna_size = len(target)` and draws the initial population; the optimizer is then ready to run |
| Optimizer.GeneticOptimizer.NextChar | optimizer/genetic_optimizer.py:47-52 | `_random_char` uses one draw and returns the character it specifies |
| Optimizer.GeneticOptimizer.InitPopulation | optimizer/genetic_optimizer.py:23-34 | the nested loops build exactly `InitialPopulation`, using `population_size * dna_size` draws |
| Optimizer.GeneticOptimizer.RandomMutate | optimizer/genetic_optimizer.py:36-45 | the loop builds exactly `Mutated`, using two draws per position |
| Optimizer.GeneticOptimizer.CrossoverPair | optimizer/genetic_optimizer.py:54-57 | `_crossover` returns `Crossover` of its parents and uses a draw only when the range is not empty |
| Optimizer.GeneticOptimizer.WeightedChoice | optimizer/genetic_optimizer.py:59-68 | the summing loop and the walk return `Selected(items, uniform(0, total))`, using one draw |
| Optimizer.GeneticOptimizer.CharFitness | optimizer/genetic_optimizer.py:115-122 | the loop returns `1 / (1 + summed character distance)` |
| Optimizer.GeneticOptimizer.Levenshtein | optimizer/genetic_optimizer.py:135-177 | the table's last cell is the edit distance; the call raises exactly when either string is empty |
| Optimizer.GeneticOptimizer.FillColumn | optimizer/genetic_optimizer.py:167-175 | the inner loop fills column `col` with the edit distances of its prefixes; it leaves row 0 and every other column as they were |
| Optimizer.GeneticOptimizer.CalculateFitness | optimizer/genetic_optimizer.py:115-133 | `_calculate_fitness` of the optimizer's class returns `Fitness` |
| Optimizer.GeneticOptimizer.WeighPopulation | optimizer/genetic_optimizer.py:106-113 | the loop returns `Weigh` of the population |
| Optimizer.GeneticOptimizer.BreedOnePair | optimizer/genetic_optimizer.py:79-85 | one iteration returns `BreedPair` at the cursor, advances the cursor by the draws it used, and advances the breeding loop by one step |
| Optimizer.GeneticOptimizer.BreedGeneration | optimizer/genetic_optimizer.py:77-86 | the cleared and rebred population, the cursor and the exception are those of `Breeding` |
| Optimizer.GeneticOptimizer.ScoreGeneration | optimizer/genetic_optimizer.py:87-97 | the rebuilt weighted population, the early return and the exception are those of `ScoreFrom` |
| Optimizer.GeneticOptimizer.Optimize | optimizer/genetic_optimizer.py:70-104 | every field at the end, and the result, are those of `Optimized` |
| ArgTypes.ParseIntOfString | argparse_utils/types.py:19 | `int(str(n)) == n` for every integer |
| ArgTypes.ParsePaddedExample | argparse_utils/types.py:19 | `int()` ignores surrounding whitespace |
| ArgTypes.ParseUnderscoreExample | argparse_utils/types.py:19 | `int()` accepts single underscores between digits |
| ArgTypes.ParseDoubleUnderscoreExample | argparse_utils/types.py:19 | `int()` refuses two underscores in a row |
| ArgTypes.ParseRefusalExample | argparse_utils/types.py:19 | `int()` refuses the empty string and a word |
| ArgTypes.IntGeThanX | argparse_utils/types.py:16-24 | `int_ge_than_x` returns the parsed number exactly when it parses and is strictly greater than `x`. Otherwise, unparsable input included, it raises `ArgumentTypeError("Not an int >= 0: '<string>'")` |
| ArgTypes.IntGeThanXOnNumber | argparse_utils/types.py:16-24 | on `str(n)` it returns `n` exactly when `n > x` |
| ArgTypes.IntGeThanXRejectsBound | argparse_utils/types.py:20-21 | the bound itself is refused |
| ArgTypes.IntGeTwoAcceptsFromThree | argparse_utils/types.py:8-9 | `int_ge_two` accepts exactly 3 and above, and refuses 2 |
| ArgTypes.IntGeZeroAcceptsFromOne | argparse_utils/types.py:12-13 | `int_ge_zero` accepts exactly 1 and above, and refuses 0 |
| ArgTypes.RefusalIgnoresBound | argparse_utils/types.py:24 | the message says ">= 0" whatever `x` is, so two bounds that refuse a string raise the same error |
| ArgTypes.IntAtLeast | argparse_utils/types.py:16-17 | the validator the name describes returns the parsed number exactly when it is at least `x`, and names `x` in its message |
| ArgTypes.IntAtLeastOnNumber | argparse_utils/types.py:16-17 | on `str(n)` it returns `n` exactly when `n >= x`; in particular it accepts the bound |
| ArgTypes.IntAtLeastAgreesAwayFromBound | argparse_utils/types.py:20 | the corrected and the written validator differ only at the bound |

## Left out

- Logging in `optimize` (optimizer/genetic_optimizer.py:96, 98-103) and the constructor's `logger` argument: they do not affect the result.
- The distributions of Python's `random` module. A draw is any value, so the model says what can happen, not how likely it is.
- Optimizer.GeneticOptimizer.RandomMutate: takes the replacement character's draw at every position, not only when the roll is 1. Draws are arbitrary, so the set of possible runs is the same, but which stream position feeds which call differs from Python.
- Floating point. Fitness is the exact real `1 / (1 + d)`. Rounding in `uniform` could return the total itself, so that `_weighted_choice` falls off the end and returns `None`. With exact reals `Selection.DrawnSelectionSucceeds` shows this cannot happen, so the `None` crash that would follow in `_random_mutate` is not modelled.
- Indexing past the end of a genome in `_random_mutate` and `_calculate_fitness` is a `requires`. It cannot happen in a run: every genome has the target's length (`Evolution.BreedFromSized`, `Genes.InitialPopulationShape`).
- Optimizer.GeneticOptimizer.Optimize: requires `Valid()`, which the constructor establishes. A second call on an optimizer whose first run raised part-way is not modelled.
- Scoring.EditDistance: that the table value is the least cost of an edit script is not stated. The model proves the zero case, the two bounds and symmetry.
- Python's `int()` beyond ASCII. Unicode digits, Unicode whitespace and non-decimal bases are not modelled; only space and codes 9 to 13 count as whitespace.
- main.py and benchmark.py: argument wiring, file logging, timing and CSV output. main.py passes `int_ge_two` itself, uncalled, as the argparse type.

## Findings

| source | as written | input that shows it | evidently intended | confidence | as-written member | corrected member |
|---|---|---|---|---|---|---|
| argparse_utils/types.py:20 | `if number <= x: raise ValueError` refuses the bound itself | `int_ge_two` on "2" raises, although main.py's help says the population "has to be at least two"; `int_ge_zero` on "0" raises | accept `number >= x` ("greater equal to x", as the name and the docstring say) | not executed | ArgTypes.IntGeThanXRejectsBound | ArgTypes.IntAtLeastOnNumber |
