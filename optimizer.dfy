/**
 * The optimizer objects of optimizer/genetic_optimizer.py.
 * `GeneticOptimizer` and `LevenshteinOptimizer` become one class whose
 * `kind` picks the fitness function. Python's global random generator
 * becomes the stream `rand`, read at the cursor `drawn`. Each method is
 * proved to compute the function of the `Genes`, `Scoring`, `Selection`
 * and `Evolution` modules that specifies it.
 */
module Optimizer {
  import opened Wrappers
  import opened Genes
  import opened Scoring
  import opened Selection
  import opened Evolution

  class GeneticOptimizer {
    const target: Genome
    /** `dna_size = len(target)`. */
    const dnaSize: nat := |target|
    const populationSize: int
    const maxGenerations: int
    const kind: FitnessKind
    /** The random generator's draws; `drawn` of them have been used. */
    const rand: Stream

    var population: seq<Genome>
    var weightedPopulation: Weighted
    var targetFitness: real
    var drawn: nat

    /** The constructor's arguments. */
    function Cfg(): Config {
      Config(target, populationSize, maxGenerations, kind)
    }

    /** The fields `optimize` reads and writes. */
    function State(): RunState
      reads this
    {
      RunState(population, weightedPopulation, targetFitness, drawn)
    }

    /** Every genome is as long as the target, and there are parents to select from. */
    predicate Valid()
      reads this
    {
      Startable(Cfg(), State())
    }

    /**
     * `__init__`: store the arguments, `dna_size = len(target)`, and draw
     * the initial population. The two placeholders Python stores in
     * `target_fitness` and `weighted_population` become 0 and [].
     */
    constructor (target: Genome, populationSize: int, maxGenerations: int, kind: FitnessKind, rand: Stream)
      ensures this.target == target && this.dnaSize == |target|
      ensures this.populationSize == populationSize && this.maxGenerations == maxGenerations
      ensures this.kind == kind && this.rand == rand
      ensures population == InitialPopulation(Count(populationSize), |target|, rand, 0)
      ensures weightedPopulation == [] && targetFitness == 0.0
      ensures drawn == Count(populationSize) * |target|
      ensures Valid()
    {
      this.target := target;
      this.populationSize := populationSize;
      this.maxGenerations := maxGenerations;
      this.kind := kind;
      this.rand := rand;
      population := [];
      weightedPopulation := [];
      targetFitness := 0.0;
      drawn := 0;
      new;
      var pop := InitPopulation();
      population := pop;
      InitialPopulationShape(Count(populationSize), |target|, rand, 0);
    }

    /** `_random_char`: one draw from the generator. */
    method NextChar() returns (c: char)
      modifies this`drawn
      ensures c == RandomChar(rand(old(drawn))) && drawn == old(drawn) + 1
    {
      c := RandomChar(rand(drawn));
      drawn := drawn + 1;
    }

    /** `_init_population`: `population_size` genomes of `dna_size` fresh characters each. */
    method InitPopulation() returns (pop: seq<Genome>)
      modifies this`drawn
      ensures pop == InitialPopulation(Count(populationSize), dnaSize, rand, old(drawn))
      ensures drawn == old(drawn) + Count(populationSize) * dnaSize
    {
      var start := drawn;
      var count := Count(populationSize);
      pop := [];
      var i := 0;
      while i < count
        invariant 0 <= i <= count && |pop| == i
        invariant forall k :: 0 <= k < i ==> pop[k] == RandomGenome(dnaSize, rand, start + k * dnaSize)
        invariant drawn == start + i * dnaSize
      {
        var base := drawn;
        var dna: Genome := [];
        var c := 0;
        while c < dnaSize
          invariant 0 <= c <= dnaSize && |dna| == c
          invariant forall k :: 0 <= k < c ==> dna[k] == RandomChar(rand(base + k))
          invariant drawn == base + c
        {
          var ch := NextChar();
          dna := dna + [ch];
          c := c + 1;
        }
        assert dna == RandomGenome(dnaSize, rand, base);
        pop := pop + [dna];
        i := i + 1;
        assert drawn == start + i * dnaSize by {
          assert (i - 1) * dnaSize + dnaSize == i * dnaSize;
        }
      }
      assert pop == InitialPopulation(count, dnaSize, rand, start);
    }

    /**
     * `_random_mutate`: position `c` keeps `dna[c]` unless its roll
     * `randrange(0, 100)` is 1, in which case it takes a fresh character.
     */
    method RandomMutate(dna: Genome) returns (result: Genome)
      requires dnaSize <= |dna|
      modifies this`drawn
      ensures result == Mutated(dna, dnaSize, rand, old(drawn))
      ensures drawn == old(drawn) + 2 * dnaSize
    {
      var start := drawn;
      result := [];
      var c := 0;
      while c < dnaSize
        invariant 0 <= c <= dnaSize && |result| == c
        invariant forall k :: 0 <= k < c ==> result[k] == Mutated(dna, dnaSize, rand, start)[k]
        invariant drawn == start + 2 * c
      {
        var roll := RandRange(0, 100, rand(drawn));
        drawn := drawn + 1;
        var ch := NextChar();
        if roll == 1 {
          result := result + [ch];
        } else {
          result := result + [dna[c]];
        }
        c := c + 1;
      }
    }
  
    /**
     * `_crossover`: cut both parents at `randrange(0, dna_size)` and swap
     * the tails. With `dna_size` 0 the range is empty and nothing is drawn.
     */
    method CrossoverPair(mother: Genome, father: Genome) returns (r: Result<(Genome, Genome), Error>)
      requires dnaSize <= |mother| && dnaSize <= |father|
      modifies this`drawn
      ensures r == Crossover(mother, father, dnaSize, rand(old(drawn)))
      ensures drawn == old(drawn) + (if r.Ok? then 1 else 0)
    {
      if dnaSize == 0 {
        return Err(EmptyRange);
      }
      var position := RandRange(0, dnaSize, rand(drawn));
      drawn := drawn + 1;
      r := Ok((mother[..position] + father[position..], father[..position] + mother[position..]));
    }

    /**
     * `_weighted_choice`: draw `n = uniform(0, total)` and walk the items,
     * subtracting each weight until one exceeds what is left of `n`.
     */
    method WeightedChoice(items: Weighted) returns (r: Option<Genome>)
      modifies this`drawn
      ensures r == Selected(items, Uniform(Total(items), rand(old(drawn))))
      ensures drawn == old(drawn) + 1
    {
      var total := 0.0;
      var i := 0;
      while i < |items|
        invariant 0 <= i <= |items| && total == Prefix(items, i)
      {
        total := total + items[i].1;
        i := i + 1;
      }
      var n := Uniform(total, rand(drawn));
      ghost var n0 := n;
      drawn := drawn + 1;
      i := 0;
      while i < |items|
        invariant 0 <= i <= |items| && SelectedFrom(items, i, n) == Selected(items, n0)
      {
        if items[i].1 > n {
          return Some(items[i].0);
        }
        n := n - items[i].1;
        i := i + 1;
      }
      r := None;
    }

    /** `GeneticOptimizer._calculate_fitness`: 1 over one plus the summed character distances. */
    method CharFitness(dna: Genome, target: Genome) returns (r: real)
      requires dnaSize <= |dna| && dnaSize <= |target|
      ensures r == Reciprocal(CharDistanceSum(dna, target, dnaSize))
    {
      var fitness := 1;
      var c := 0;
      while c < dnaSize
        invariant 0 <= c <= dnaSize && fitness == 1 + CharDistanceSum(dna, target, c)
      {
        fitness := fitness + Abs(dna[c] as int - target[c] as int);
        c := c + 1;
      }
      r := 1.0 / fitness as real;
    }

    /**
     * `LevenshteinOptimizer._levenshtein`: fill the table `dist` column by
     * column. The final `dist[row][col]` reads the loop variables, which
     * are never bound when either string is empty.
     */
    static method Levenshtein(s: Genome, t: Genome, costs: Costs) returns (r: Result<int, Error>)
      ensures r.Err? <==> |s| == 0 || |t| == 0
      ensures r.Err? ==> r.error == UnboundLocal
      ensures r.Ok? ==> r.value == EditDistance(s, t, costs, |s|, |t|)
    {
      var rows, cols := |s| + 1, |t| + 1;
      var dist := new int[rows, cols]((_, _) => 0);
      var row := 1;
      while row < rows
        invariant 1 <= row <= rows
        invariant forall i :: 0 <= i < row ==> dist[i, 0] == EditDistance(s, t, costs, i, 0)
      {
        dist[row, 0] := row * costs.deletes;
        row := row + 1;
      }
      var col := 1;
      while col < cols
        invariant 1 <= col <= cols
        invariant forall i :: 0 <= i < rows ==> dist[i, 0] == EditDistance(s, t, costs, i, 0)
        invariant forall j :: 0 <= j < col ==> dist[0, j] == EditDistance(s, t, costs, 0, j)
      {
        dist[0, col] := col * costs.inserts;
        col := col + 1;
      }
      col := 1;
      while col < cols
        invariant 1 <= col <= cols
        invariant forall j :: 0 <= j < cols ==> dist[0, j] == EditDistance(s, t, costs, 0, j)
        invariant ColumnsFilled(dist, s, t, costs, col)
      {
        FillColumn(dist, s, t, costs, col);
        col := col + 1;
      }
      if rows == 1 || cols == 1 {
        r := Err(UnboundLocal);
      } else {
        r := Ok(dist[rows - 1, cols - 1]);
      }
    }

    /** Columns 0 to `col - 1` of the table hold the edit distances of their prefixes. */
    static ghost predicate ColumnsFilled(dist: array2<int>, s: Genome, t: Genome, costs: Costs, col: nat)
      reads dist
    {
      && dist.Length0 == |s| + 1 && dist.Length1 == |t| + 1 && col <= |t| + 1
      && forall i, j {:trigger dist[i, j]} :: 0 <= i <= |s| && 0 <= j < col ==> dist[i, j] == EditDistance(s, t, costs, i, j)
    }

    /** The inner loop of `_levenshtein`: fill column `col` from row 1 down. */
    static method FillColumn(dist: array2<int>, s: Genome, t: Genome, costs: Costs, col: nat)
      requires 1 <= col <= |t| && ColumnsFilled(dist, s, t, costs, col)
      requires dist[0, col] == EditDistance(s, t, costs, 0, col)
      modifies dist
      ensures ColumnsFilled(dist, s, t, costs, col + 1)
      ensures forall j :: 0 <= j < dist.Length1 ==> dist[0, j] == old(dist[0, j])
      ensures forall i, j :: 0 <= i < dist.Length0 && 0 <= j < dist.Length1 && j != col ==> dist[i, j] == old(dist[i, j])
    {
      var row := 1;
      while row <= |s|
        invariant 1 <= row <= |s| + 1
        invariant ColumnsFilled(dist, s, t, costs, col)
        invariant forall i {:trigger dist[i, col]} :: 0 <= i < row ==> dist[i, col] == EditDistance(s, t, costs, i, col)
        invariant forall j :: 0 <= j < dist.Length1 ==> dist[0, j] == old(dist[0, j])
        invariant forall i, j :: 0 <= i < dist.Length0 && 0 <= j < dist.Length1 && j != col ==> dist[i, j] == old(dist[i, j])
      {
        var cost := if s[row - 1] == t[col - 1] then 0 else costs.substitutes;
        ghost var up, left, diagonal :=
          EditDistance(s, t, costs, row - 1, col), EditDistance(s, t, costs, row, col - 1),
          EditDistance(s, t, costs, row - 1, col - 1);
        assert dist[row - 1, col] == up && dist[row, col - 1] == left && dist[row - 1, col - 1] == diagonal;
        dist[row, col] := Min3(dist[row - 1, col] + costs.deletes,
                               dist[row, col - 1] + costs.inserts,
                               dist[row - 1, col - 1] + cost);
        assert dist[row, col] == EditDistance(s, t, costs, row, col);
        row := row + 1;
      }
    }

    /** `_calculate_fitness` of the optimizer's class, as `kind` selects it. */
    method CalculateFitness(dna: Genome, target: Genome) returns (r: Result<real, Error>)
      requires kind == CharDistance ==> dnaSize <= |dna| && dnaSize <= |target|
      ensures r == Fitness(kind, dnaSize, dna, target)
    {
      match kind
      case CharDistance =>
        var f := CharFitness(dna, target);
        r := Ok(f);
      case Levenshtein =>
        var d := Levenshtein(dna, target, UnitCosts);
        match d
        case Err(e) =>
          r := Err(e);
        case Ok(distance) =>
          assert distance >= 0;
          r := Ok(1.0 / (1 + distance) as real);
          assert r == Ok(Reciprocal(distance));
    }

    /** `_weigh_population`: pair every genome with its fitness against the target. */
    method WeighPopulation() returns (r: Result<Weighted, Error>)
      requires AllSized(population, |target|)
      ensures r == Weigh(Cfg(), population)
    {
      var weighted: Weighted := [];
      var i := 0;
      while i < |population|
        invariant 0 <= i <= |population|
        invariant WeighFrom(Cfg(), population, i, weighted) == Weigh(Cfg(), population)
      {
        var f := CalculateFitness(population[i], target);
        match f
        case Err(e) =>
          return Err(e);
        case Ok(w) =>
          weighted := weighted + [(population[i], w)];
        i := i + 1;
      }
      r := Ok(weighted);
    }
  
    /**
     * One iteration of the breeding loop (lines 79-85 of `optimize`): select
     * two parents, mutate each, cross them over. The ghost `b` is the
     * outcome of the `remaining` iterations left, which this one advances.
     */
    method BreedOnePair(ghost remaining: nat, ghost b: Bred) returns (children: Result<(Genome, Genome), Error>)
      requires remaining > 0 && Breedable(weightedPopulation, dnaSize)
      requires BreedFrom(dnaSize, rand, weightedPopulation, remaining, population, drawn) == b
      modifies this`drawn
      ensures children == BreedPair(dnaSize, rand, weightedPopulation, old(drawn))
      ensures drawn == old(drawn) + if children.Ok? then PairDraws(dnaSize) else 2 + 4 * dnaSize
      ensures children.Err? ==> b == Bred(population, drawn, Some(children.error))
      ensures children.Ok? ==>
        BreedFrom(dnaSize, rand, weightedPopulation, remaining - 1, population + [children.value.0, children.value.1], drawn) == b
    {
      ghost var cur := drawn;
      DrawnSelectionSucceeds(weightedPopulation, rand(drawn));
      DrawnSelectionSucceeds(weightedPopulation, rand(drawn + 1));
      PickIsMember(weightedPopulation, rand(drawn));
      PickIsMember(weightedPopulation, rand(drawn + 1));
      var dna1 := WeightedChoice(weightedPopulation);
      var dna2 := WeightedChoice(weightedPopulation);
      var mutated1 := RandomMutate(dna1.value);
      var mutated2 := RandomMutate(dna2.value);
      children := CrossoverPair(mutated1, mutated2);
      BreedFromStep(dnaSize, rand, weightedPopulation, remaining, population, cur, children, drawn);
    }

    /**
     * Lines 77-86 of `optimize`: clear the population, then breed
     * `int(population_size / 2)` pairs from the weighted population. An
     * exception from `_crossover` ends the loop with the children so far.
     */
    method BreedGeneration() returns (error: Option<Error>)
      requires Running(Cfg(), State())
      modifies this`population, this`drawn
      ensures var b := Breeding(Cfg(), rand, old(State()));
              population == b.children && drawn == b.drawn && error == b.error
    {
      ghost var b := Breeding(Cfg(), rand, State());
      population := [];
      var remaining := Pairs(populationSize);
      while remaining > 0
        invariant BreedFrom(dnaSize, rand, weightedPopulation, remaining, population, drawn) == b
      {
        var children := BreedOnePair(remaining, b);
        if children.Err? {
          return Some(children.error);
        }
        population := population + [children.value.0, children.value.1];
        remaining := remaining - 1;
      }
      error := None;
    }

    /**
     * Lines 87-97 of `optimize`: clear the weighted population and rebuild
     * it genome by genome; a fitness above the best so far that equals the
     * target fitness returns at once.
     */
    method ScoreGeneration() returns (hit: bool, error: Option<Error>)
      requires AllSized(population, |target|)
      modifies this`weightedPopulation
      ensures var s := ScoreFrom(Cfg(), population, 0, [], 0.0, targetFitness);
              weightedPopulation == s.weighted && hit == s.hit && error == s.error
    {
      ghost var s := ScoreFrom(Cfg(), population, 0, [], 0.0, targetFitness);
      weightedPopulation := [];
      var fittest := 0.0;
      var i := 0;
      while i < |population|
        invariant 0 <= i <= |population|
        invariant ScoreFrom(Cfg(), population, i, weightedPopulation, fittest, targetFitness) == s
      {
        var f := CalculateFitness(population[i], target);
        match f
        case Err(e) =>
          return false, Some(e);
        case Ok(fitness) =>
          weightedPopulation := weightedPopulation + [(population[i], fitness)];
          if fitness > fittest {
            fittest := fitness;
            if fitness == targetFitness {
              return true, None;
            }
          }
        i := i + 1;
      }
      hit, error := false, None;
    }

    /**
     * `optimize()`: weigh the population, compute the target fitness, then
     * breed and score up to `max_generations` generations. The result is
     * `(reached, generations)`, or the exception that ended the run; every
     * field ends as `Evolution.Optimized` says.
     */
    method Optimize() returns (r: Result<Outcome, Error>)
      requires Valid()
      modifies this
      ensures (State(), r) == Optimized(Cfg(), rand, old(State()))
    {
      var w := WeighPopulation();
      match w
      case Err(e) =>
        return Err(e);
      case Ok(weighted) =>
        weightedPopulation := weighted;
      var tf := CalculateFitness(target, target);
      match tf
      case Err(e) =>
        return Err(e);
      case Ok(fitness) =>
        targetFitness := fitness;
      WeighShape(Cfg(), population, 0, []);
      WeighedIsRunning(Cfg(), State());
      ghost var start := State();
      var gen := 0;
      while gen < maxGenerations
        invariant Running(Cfg(), State())
        invariant RunFrom(Cfg(), rand, gen, State()) == RunFrom(Cfg(), rand, 0, start)
        decreases maxGenerations - gen
      {
        ghost var before := State();
        BreedFromShape(dnaSize, rand, weightedPopulation, Pairs(populationSize), [], drawn);
        var breedError := BreedGeneration();
        match breedError
        case Some(e) =>
          return Err(e);
        case None =>
        var hit, scoreError := ScoreGeneration();
        match scoreError
        case Some(e) =>
          return Err(e);
        case None =>
        if hit {
          return Ok(Outcome(true, gen));
        }
        assert Generation(Cfg(), rand, gen, before) == Continue(State());
        gen := gen + 1;
      }
      r := Ok(Outcome(false, maxGenerations));
    }
  }
}
