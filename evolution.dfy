/**
 * The generation loop of `GeneticOptimizer.optimize` in
 * optimizer/genetic_optimizer.py, stated as a function of the optimizer's
 * configuration, its random stream and the fields it starts from. The
 * method `Optimizer.GeneticOptimizer.Optimize` is proved to compute it;
 * the lemmas at the end say what it means.
 */
module Evolution {
  import opened Wrappers
  import opened Genes
  import opened Scoring
  import opened Selection

  /** The constructor's arguments (the logger is left out). */
  datatype Config = Config(target: Genome, populationSize: int, maxGenerations: int, kind: FitnessKind)

  /** The pair `(reached, generations)` that `optimize` returns. */
  datatype Outcome = Outcome(reached: bool, generations: int)

  /** The fields `optimize` updates, and how many draws have been taken. */
  datatype RunState = RunState(population: seq<Genome>, weighted: Weighted, targetFitness: real, drawn: nat)

  /**
   * Iterations of `range(int(population_size / 2))`: the division
   * truncates, so an odd size breeds one genome fewer than it asks for.
   */
  function Pairs(populationSize: int): (p: nat)
    ensures populationSize >= 0 ==> 2 * p == populationSize - populationSize % 2
    ensures populationSize <= 1 ==> p == 0
  {
    if populationSize <= 0 then 0 else populationSize / 2
  }

  /** Draws taken per pair: two selections, two mutations of `size` positions (two draws each), one crossover. */
  function PairDraws(size: nat): nat {
    4 * size + 3
  }

  /** What selection needs from the weighted population. */
  predicate Breedable(weighted: Weighted, size: nat) {
    && weighted != []
    && PositiveWeights(weighted)
    && forall i :: 0 <= i < |weighted| ==> |weighted[i].0| == size
  }

  /** `_weighted_choice(weighted_population)` with `n = uniform(0, total)` taken from draw `d`. */
  function Pick(weighted: Weighted, d: Draw): (g: Genome)
    requires weighted != [] && PositiveWeights(weighted)
  {
    DrawnSelectionSucceeds(weighted, d);
    Selected(weighted, Uniform(Total(weighted), d)).value
  }

  /** The parent chosen is one of the weighted population's genomes. */
  lemma PickIsMember(weighted: Weighted, d: Draw)
    requires weighted != [] && PositiveWeights(weighted)
    ensures exists i :: 0 <= i < |weighted| && weighted[i].0 == Pick(weighted, d)
  {
    DrawnSelectionSucceeds(weighted, d);
    SelectedFromIsMember(weighted, 0, Uniform(Total(weighted), d));
  }

  /**
   * One iteration of the breeding loop from draw `cur`: select two parents,
   * mutate each, cross them over.
   */
  function BreedPair(size: nat, rand: Stream, weighted: Weighted, cur: nat): (r: Result<(Genome, Genome), Error>)
    requires Breedable(weighted, size)
  {
    var dna1 := Pick(weighted, rand(cur));
    var dna2 := Pick(weighted, rand(cur + 1));
    PickIsMember(weighted, rand(cur));
    PickIsMember(weighted, rand(cur + 1));
    var mutated1 := Mutated(dna1, size, rand, cur + 2);
    var mutated2 := Mutated(dna2, size, rand, cur + 2 + 2 * size);
    Crossover(mutated1, mutated2, size, rand(cur + 2 + 4 * size))
  }

  /** The breeding loop's progress: children so far, draws taken, and the exception if one was raised. */
  datatype Bred = Bred(children: seq<Genome>, drawn: nat, error: Option<Error>)

  /**
   * The remaining `remaining` iterations of the breeding loop: select two
   * parents, mutate each, cross them over and append both children.
   */
  function BreedFrom(size: nat, rand: Stream, weighted: Weighted, remaining: nat, children: seq<Genome>, cur: nat): Bred
    requires remaining > 0 ==> Breedable(weighted, size)
    decreases remaining
  {
    if remaining == 0 then Bred(children, cur, None)
    else
      match BreedPair(size, rand, weighted, cur)
      case Err(e) => Bred(children, cur + 2 + 4 * size, Some(e))
      case Ok(pair) => BreedFrom(size, rand, weighted, remaining - 1, children + [pair.0, pair.1], cur + PairDraws(size))
  }

  /** `_weigh_population`, from position `i` on with `acc` built so far. */
  function WeighFrom(cfg: Config, pop: seq<Genome>, i: nat, acc: Weighted): Result<Weighted, Error>
    requires i <= |pop| && AllSized(pop, |cfg.target|)
    decreases |pop| - i
  {
    if i == |pop| then Ok(acc)
    else
      match Fitness(cfg.kind, |cfg.target|, pop[i], cfg.target)
      case Err(e) => Err(e)
      case Ok(f) => WeighFrom(cfg, pop, i + 1, acc + [(pop[i], f)])
  }

  /** `_weigh_population(self._calculate_fitness)`. */
  function Weigh(cfg: Config, pop: seq<Genome>): Result<Weighted, Error>
    requires AllSized(pop, |cfg.target|)
  {
    WeighFrom(cfg, pop, 0, [])
  }

  /** The scoring loop's outcome: the rebuilt weighted population, whether it returned early, and the exception. */
  datatype Scored = Scored(weighted: Weighted, hit: bool, error: Option<Error>)

  /**
   * The rest of the scoring loop from position `i`: append each genome
   * with its fitness; a fitness above the best so far that equals the
   * target fitness ends the run.
   */
  function ScoreFrom(cfg: Config, pop: seq<Genome>, i: nat, acc: Weighted, fittest: real, targetFitness: real): Scored
    requires i <= |pop| && AllSized(pop, |cfg.target|)
    decreases |pop| - i
  {
    if i == |pop| then Scored(acc, false, None)
    else
      match Fitness(cfg.kind, |cfg.target|, pop[i], cfg.target)
      case Err(e) => Scored(acc, false, Some(e))
      case Ok(f) =>
        var acc' := acc + [(pop[i], f)];
        if f > fittest && f == targetFitness then Scored(acc', true, None)
        else ScoreFrom(cfg, pop, i + 1, acc', if f > fittest then f else fittest, targetFitness)
  }

  /** The first `n` genomes of `pop`, in order, each paired with its fitness. */
  predicate Weighed(cfg: Config, pop: seq<Genome>, w: Weighted, n: nat) {
    && AllSized(pop, |cfg.target|) && n <= |pop| && |w| == n
    && forall k :: 0 <= k < n ==> w[k].0 == pop[k] && Fitness(cfg.kind, |cfg.target|, pop[k], cfg.target) == Ok(w[k].1)
  }

  /** What a generation needs of the state it starts from. */
  predicate Running(cfg: Config, st: RunState) {
    && AllSized(st.population, |cfg.target|)
    && PositiveWeights(st.weighted)
    && (forall i :: 0 <= i < |st.weighted| ==> |st.weighted[i].0| == |cfg.target|)
    && (Pairs(cfg.populationSize) > 0 ==> st.weighted != [])
  }

  /** What `optimize` needs of a freshly built optimizer: genomes of the target's length, and parents to select from. */
  predicate Startable(cfg: Config, st: RunState) {
    && AllSized(st.population, |cfg.target|)
    && (Pairs(cfg.populationSize) > 0 ==> st.population != [])
  }

  /** The breeding loop of generation from state `st`. */
  function Breeding(cfg: Config, rand: Stream, st: RunState): Bred
    requires Running(cfg, st)
  {
    BreedFrom(|cfg.target|, rand, st.weighted, Pairs(cfg.populationSize), [], st.drawn)
  }

  /** How a generation ends: the run stops with a result, or goes on from a new state. */
  datatype Step =
    | Stop(final: RunState, result: Result<Outcome, Error>)
    | Continue(next: RunState)

  /**
   * Generation `gen` of `optimize`: clear the population and breed it anew,
   * clear the weighted population and rebuild it, returning early when a
   * genome reaches the target fitness.
   */
  function Generation(cfg: Config, rand: Stream, gen: int, st: RunState): (g: Step)
    requires Running(cfg, st)
    ensures g.Continue? ==> Running(cfg, g.next) && g.next.targetFitness == st.targetFitness
    ensures g.Stop? && g.result.Ok? ==> g.result == Ok(Outcome(true, gen))
  {
    var b := Breeding(cfg, rand, st);
    BreedFromShape(|cfg.target|, rand, st.weighted, Pairs(cfg.populationSize), [], st.drawn);
    match b.error
    case Some(e) => Stop(st.(population := b.children, drawn := b.drawn), Err(e))
    case None =>
      var s := ScoreFrom(cfg, b.children, 0, [], 0.0, st.targetFitness);
      var next := RunState(b.children, s.weighted, st.targetFitness, b.drawn);
      match s.error
      case Some(e) => Stop(next, Err(e))
      case None =>
        if s.hit then Stop(next, Ok(Outcome(true, gen)))
        else
          ScoreFromShape(cfg, b.children, 0, [], 0.0, st.targetFitness);
          WeighShape(cfg, b.children, 0, []);
          WeighedIsRunning(cfg, next);
          Continue(next)
  }

  /** The generations `gen`, `gen + 1`, ... of `optimize`, with the final state and result. */
  function RunFrom(cfg: Config, rand: Stream, gen: int, st: RunState): (RunState, Result<Outcome, Error>)
    requires Running(cfg, st)
    decreases cfg.maxGenerations - gen
  {
    if gen >= cfg.maxGenerations then (st, Ok(Outcome(false, cfg.maxGenerations)))
    else
      match Generation(cfg, rand, gen, st)
      case Stop(final, result) => (final, result)
      case Continue(next) => RunFrom(cfg, rand, gen + 1, next)
  }

  /**
   * `optimize()`: weigh the population, compute the target fitness, then
   * run the generations. The result and every field at the end.
   */
  function Optimized(cfg: Config, rand: Stream, st: RunState): (RunState, Result<Outcome, Error>)
    requires Startable(cfg, st)
  {
    match Weigh(cfg, st.population)
    case Err(e) => (st, Err(e))
    case Ok(w) =>
      match Fitness(cfg.kind, |cfg.target|, cfg.target, cfg.target)
      case Err(e) => (st.(weighted := w), Err(e))
      case Ok(tf) =>
        WeighShape(cfg, st.population, 0, []);
        WeighedIsRunning(cfg, st.(weighted := w, targetFitness := tf));
        RunFrom(cfg, rand, 0, st.(weighted := w, targetFitness := tf))
  }

  /**
   * The state after the `k` generations `gen`, ..., `gen + k - 1` when each
   * of them went on to the next, and `None` when one of them stopped the run.
   */
  function After(cfg: Config, rand: Stream, gen: int, st: RunState, k: nat): (r: Option<RunState>)
    requires Running(cfg, st)
    ensures r.Some? ==> Running(cfg, r.value) && r.value.targetFitness == st.targetFitness
    decreases k
  {
    if k == 0 then Some(st)
    else
      match Generation(cfg, rand, gen, st)
      case Stop(_, _) => None
      case Continue(next) => After(cfg, rand, gen + 1, next, k - 1)
  }

  /**
   * `optimize()` up to the generation loop: the weighed population and the
   * target fitness it starts from, or `None` when computing either raises.
   */
  function Started(cfg: Config, st: RunState): (r: Option<RunState>)
    requires Startable(cfg, st)
    ensures r.Some? <==> Weigh(cfg, st.population).Ok? && Fitness(cfg.kind, |cfg.target|, cfg.target, cfg.target).Ok?
    ensures r.Some? ==> Running(cfg, r.value) && r.value.population == st.population && r.value.drawn == st.drawn
  {
    match Weigh(cfg, st.population)
    case Err(_) => None
    case Ok(w) =>
      match Fitness(cfg.kind, |cfg.target|, cfg.target, cfg.target)
      case Err(_) => None
      case Ok(tf) =>
        WeighShape(cfg, st.population, 0, []);
        WeighedIsRunning(cfg, st.(weighted := w, targetFitness := tf));
        Some(st.(weighted := w, targetFitness := tf))
  }

  // ---------------------------------------------------------------------
  // Shape of one generation
  // ---------------------------------------------------------------------

  /**
   * One iteration of the breeding loop, which moves the cursor from `cur`
   * to `next`: an exception ends the loop, a pair resumes it with both
   * children appended.
   */
  lemma BreedFromStep(size: nat, rand: Stream, weighted: Weighted, remaining: nat, children: seq<Genome>, cur: nat,
                      r: Result<(Genome, Genome), Error>, next: nat)
    requires remaining > 0 && Breedable(weighted, size)
    requires r == BreedPair(size, rand, weighted, cur)
    requires next == cur + if r.Ok? then PairDraws(size) else 2 + 4 * size
    ensures r.Err? ==> BreedFrom(size, rand, weighted, remaining, children, cur) == Bred(children, next, Some(r.error))
    ensures r.Ok? ==>
      BreedFrom(size, rand, weighted, remaining, children, cur)
      == BreedFrom(size, rand, weighted, remaining - 1, children + [r.value.0, r.value.1], next)
  {
  }

  /** A pair raises exactly when the target is empty; otherwise both children have the target's length. */
  lemma BreedPairShape(size: nat, rand: Stream, weighted: Weighted, cur: nat)
    requires Breedable(weighted, size)
    ensures BreedPair(size, rand, weighted, cur).Err? <==> size == 0
    ensures BreedPair(size, rand, weighted, cur).Ok? ==>
      |BreedPair(size, rand, weighted, cur).value.0| == size && |BreedPair(size, rand, weighted, cur).value.1| == size
  {
    var dna1 := Pick(weighted, rand(cur));
    var dna2 := Pick(weighted, rand(cur + 1));
    PickIsMember(weighted, rand(cur));
    PickIsMember(weighted, rand(cur + 1));
    var mutated1 := Mutated(dna1, size, rand, cur + 2);
    var mutated2 := Mutated(dna2, size, rand, cur + 2 + 2 * size);
    MutatedPositions(dna1, size, rand, cur + 2);
    MutatedPositions(dna2, size, rand, cur + 2 + 2 * size);
    if size > 0 {
      CrossoverChildren(mutated1, mutated2, size, rand(cur + 2 + 4 * size));
    }
  }

  /**
   * The breeding loop raises exactly when the target is empty (the
   * crossover range is empty), and then before any child is appended.
   */
  lemma {:induction false} BreedFromRaises(size: nat, rand: Stream, weighted: Weighted, remaining: nat, children: seq<Genome>, cur: nat)
    requires remaining > 0 ==> Breedable(weighted, size)
    ensures BreedFrom(size, rand, weighted, remaining, children, cur).error.Some? <==> size == 0 && remaining > 0
    ensures BreedFrom(size, rand, weighted, remaining, children, cur).error.Some? ==>
      BreedFrom(size, rand, weighted, remaining, children, cur).children == children
    decreases remaining
  {
    if remaining > 0 {
      BreedPairShape(size, rand, weighted, cur);
      var r := BreedPair(size, rand, weighted, cur);
      if r.Ok? {
        BreedFromRaises(size, rand, weighted, remaining - 1, children + [r.value.0, r.value.1], cur + PairDraws(size));
      }
    }
  }

  /** Otherwise it appends two children of the target's length per pair. */
  lemma {:induction false} BreedFromCount(size: nat, rand: Stream, weighted: Weighted, remaining: nat, children: seq<Genome>, cur: nat)
    requires remaining > 0 ==> Breedable(weighted, size)
    ensures BreedFrom(size, rand, weighted, remaining, children, cur).error.None? ==>
      |BreedFrom(size, rand, weighted, remaining, children, cur).children| == |children| + 2 * remaining
    decreases remaining
  {
    if remaining > 0 {
      var r := BreedPair(size, rand, weighted, cur);
      if r.Ok? {
        BreedFromCount(size, rand, weighted, remaining - 1, children + [r.value.0, r.value.1], cur + PairDraws(size));
      }
    }
  }

  /** Every child bred has the target's length. */
  lemma {:induction false} BreedFromSized(size: nat, rand: Stream, weighted: Weighted, remaining: nat, children: seq<Genome>, cur: nat)
    requires remaining > 0 ==> Breedable(weighted, size)
    requires AllSized(children, size)
    ensures AllSized(BreedFrom(size, rand, weighted, remaining, children, cur).children, size)
    decreases remaining
  {
    if remaining > 0 {
      BreedPairShape(size, rand, weighted, cur);
      var r := BreedPair(size, rand, weighted, cur);
      if r.Ok? {
        var more := children + [r.value.0, r.value.1];
        assert AllSized(more, size);
        BreedFromSized(size, rand, weighted, remaining - 1, more, cur + PairDraws(size));
      }
    }
  }

  /** The three facts about the breeding loop together. */
  lemma BreedFromShape(size: nat, rand: Stream, weighted: Weighted, remaining: nat, children: seq<Genome>, cur: nat)
    requires remaining > 0 ==> Breedable(weighted, size)
    requires AllSized(children, size)
    ensures var b := BreedFrom(size, rand, weighted, remaining, children, cur);
      && (b.error.Some? <==> size == 0 && remaining > 0)
      && (b.error.Some? ==> b.children == children)
      && (b.error.None? ==> |b.children| == |children| + 2 * remaining)
      && AllSized(b.children, size)
  {
    BreedFromRaises(size, rand, weighted, remaining, children, cur);
    BreedFromCount(size, rand, weighted, remaining, children, cur);
    BreedFromSized(size, rand, weighted, remaining, children, cur);
  }

  /** A complete weighing has positive weights on genomes of the target's length. */
  lemma WeighedIsRunning(cfg: Config, st: RunState)
    requires Weighed(cfg, st.population, st.weighted, |st.population|)
    requires Pairs(cfg.populationSize) > 0 ==> st.population != []
    ensures Running(cfg, st)
  {
    forall i | 0 <= i < |st.weighted|
      ensures st.weighted[i].1 > 0.0 && |st.weighted[i].0| == |cfg.target|
    {
      assert Fitness(cfg.kind, |cfg.target|, st.population[i], cfg.target) == Ok(st.weighted[i].1);
    }
  }

  /** `_weigh_population` pairs every genome, in order, with its fitness; it raises only for the edit distance of an empty target. */
  lemma {:induction false} WeighShape(cfg: Config, pop: seq<Genome>, i: nat, acc: Weighted)
    requires i <= |pop| && AllSized(pop, |cfg.target|)
    requires Weighed(cfg, pop, acc, i)
    ensures var r := WeighFrom(cfg, pop, i, acc);
      && (r.Err? <==> cfg.kind == Levenshtein && |cfg.target| == 0 && i < |pop|)
      && (r.Ok? ==> Weighed(cfg, pop, r.value, |pop|))
    decreases |pop| - i
  {
    if i < |pop| {
      var f := Fitness(cfg.kind, |cfg.target|, pop[i], cfg.target);
      if f.Ok? {
        WeighShape(cfg, pop, i + 1, acc + [(pop[i], f.value)]);
      }
    }
  }

  /**
   * The scoring loop raises only for the edit distance of an empty target;
   * when it neither raises nor returns early it has built exactly what
   * `_weigh_population` builds; when it returns early its last entry
   * carries the target fitness.
   */
  lemma {:induction false} ScoreFromShape(cfg: Config, pop: seq<Genome>, i: nat, acc: Weighted, fittest: real, targetFitness: real)
    requires i <= |pop| && AllSized(pop, |cfg.target|)
    requires Weighed(cfg, pop, acc, i)
    ensures var s := ScoreFrom(cfg, pop, i, acc, fittest, targetFitness);
      && (s.error.Some? ==> cfg.kind == Levenshtein && |cfg.target| == 0)
      && (s.error.None? && !s.hit ==> WeighFrom(cfg, pop, i, acc) == Ok(s.weighted))
      && (s.hit ==> i < |s.weighted| && Weighed(cfg, pop, s.weighted, |s.weighted|)
                    && s.weighted[|s.weighted| - 1].1 == targetFitness)
    decreases |pop| - i
  {
    if i < |pop| {
      var f := Fitness(cfg.kind, |cfg.target|, pop[i], cfg.target);
      if f.Ok? {
        ScoreFromShape(cfg, pop, i + 1, acc + [(pop[i], f.value)], if f.value > fittest then f.value else fittest, targetFitness);
      }
    }
  }

  /** Edit-distance scoring of an empty target is the one case that raises. */
  predicate Scorable(cfg: Config) {
    cfg.kind == Levenshtein ==> |cfg.target| > 0
  }

  /**
   * With target fitness 1 and every fitness seen so far below 1, the
   * scoring loop returns early exactly when the target itself is among
   * the remaining genomes, and the genome it stops at is the target.
   */
  lemma {:induction false} ScoreFromHit(cfg: Config, pop: seq<Genome>, i: nat, acc: Weighted, fittest: real)
    requires i <= |pop| && AllSized(pop, |cfg.target|) && Scorable(cfg)
    requires fittest < 1.0
    ensures var s := ScoreFrom(cfg, pop, i, acc, fittest, 1.0);
      && s.error.None?
      && (s.hit <==> cfg.target in pop[i..])
      && (s.hit ==> s.weighted != [] && s.weighted[|s.weighted| - 1].0 == cfg.target)
    decreases |pop| - i
  {
    if i < |pop| {
      FitnessIsOneIffTarget(cfg.kind, pop[i], cfg.target);
      var f := Fitness(cfg.kind, |cfg.target|, pop[i], cfg.target).value;
      assert pop[i..] == [pop[i]] + pop[i + 1..];
      if f != 1.0 {
        ScoreFromHit(cfg, pop, i + 1, acc + [(pop[i], f)], if f > fittest then f else fittest);
      }
    }
  }

  // ---------------------------------------------------------------------
  // What a run returns
  // ---------------------------------------------------------------------

  /**
   * One generation with target fitness 1: it raises exactly when the
   * target is empty and there is a pair to breed; otherwise it stops with
   * `(True, gen)` exactly when a bred genome is the target, and else goes
   * on from the bred population, weighed as `_weigh_population` weighs it.
   */
  lemma GenerationOutcome(cfg: Config, rand: Stream, gen: int, st: RunState)
    requires Running(cfg, st) && Scorable(cfg) && st.targetFitness == 1.0
    ensures var b := Breeding(cfg, rand, st);
      var g := Generation(cfg, rand, gen, st);
      && (g.Stop? ==> g.final.targetFitness == 1.0)
      && (g.Stop? && g.result.Err? <==> |cfg.target| == 0 && Pairs(cfg.populationSize) > 0)
      && (g.Stop? && g.result.Ok? <==> b.error.None? && cfg.target in b.children)
      && (g.Stop? && g.result.Ok? ==>
            && g.result.value == Outcome(true, gen)
            && g.final.population == b.children && cfg.target in g.final.population && g.final.drawn == b.drawn
            && g.final.weighted != [] && g.final.weighted[|g.final.weighted| - 1] == (cfg.target, 1.0))
      && (g.Continue? ==>
            && b.error.None? && g.next.population == b.children && cfg.target !in b.children
            && g.next.drawn == b.drawn && g.next.targetFitness == 1.0
            && |b.children| == 2 * Pairs(cfg.populationSize) && AllSized(b.children, |cfg.target|)
            && Weigh(cfg, b.children) == Ok(g.next.weighted))
  {
    var size := |cfg.target|;
    var b := Breeding(cfg, rand, st);
    BreedFromShape(size, rand, st.weighted, Pairs(cfg.populationSize), [], st.drawn);
    if b.error.None? {
      ScoreFromHit(cfg, b.children, 0, [], 0.0);
      ScoreFromShape(cfg, b.children, 0, [], 0.0, 1.0);
      assert b.children[0..] == b.children;
      var s := ScoreFrom(cfg, b.children, 0, [], 0.0, 1.0);
      if s.hit {
        var last := s.weighted[|s.weighted| - 1];
        FitnessIsOneIffTarget(cfg.kind, last.0, cfg.target);
      }
    }
  }

  /** A run from `gen` raises exactly when the target is empty, a pair is bred and a generation is left. */
  lemma {:induction false} RunFromRaises(cfg: Config, rand: Stream, gen: int, st: RunState)
    requires Running(cfg, st) && Scorable(cfg) && st.targetFitness == 1.0
    ensures var (final, r) := RunFrom(cfg, rand, gen, st);
      && final.targetFitness == 1.0
      && (r.Err? <==> |cfg.target| == 0 && Pairs(cfg.populationSize) > 0 && gen < cfg.maxGenerations)
    decreases cfg.maxGenerations - gen
  {
    if gen < cfg.maxGenerations {
      GenerationOutcome(cfg, rand, gen, st);
      var g := Generation(cfg, rand, gen, st);
      if g.Continue? {
        RunFromRaises(cfg, rand, gen + 1, g.next);
        assert RunFrom(cfg, rand, gen, st) == RunFrom(cfg, rand, gen + 1, g.next);
      }
    }
  }

  /** A run from `gen < max_generations` that goes on past generation `gen` is the run from `gen + 1`. */
  lemma RunFromFront(cfg: Config, rand: Stream, gen: int, st: RunState)
    requires Running(cfg, st) && gen < cfg.maxGenerations
    ensures Generation(cfg, rand, gen, st).Continue? ==>
      RunFrom(cfg, rand, gen, st) == RunFrom(cfg, rand, gen + 1, Generation(cfg, rand, gen, st).next)
  {
  }

  /** `k > 0` generations from `gen` went on exactly when generation `gen` did and `k - 1` more after it. */
  lemma AfterFront(cfg: Config, rand: Stream, gen: int, st: RunState, k: nat)
    requires Running(cfg, st) && k > 0
    ensures After(cfg, rand, gen, st, k).Some? ==> Generation(cfg, rand, gen, st).Continue?
    ensures Generation(cfg, rand, gen, st).Continue? ==>
      After(cfg, rand, gen, st, k) == After(cfg, rand, gen + 1, Generation(cfg, rand, gen, st).next, k - 1)
  {
  }

  /**
   * `(True, g)` comes from generation `g` itself: every generation from
   * `gen` up to `g` went on to the next, and generation `g`, run from the
   * state they left, returned this result and final state.
   */
  lemma {:induction false} RunFromStoppedAt(cfg: Config, rand: Stream, gen: int, st: RunState)
    requires Running(cfg, st)
    ensures var (final, r) := RunFrom(cfg, rand, gen, st);
      r.Ok? && r.value.reached ==>
        var g := r.value.generations;
        && gen <= g < cfg.maxGenerations
        && After(cfg, rand, gen, st, g - gen).Some?
        && Generation(cfg, rand, g, After(cfg, rand, gen, st, g - gen).value) == Stop(final, r)
    decreases cfg.maxGenerations - gen
  {
    if gen < cfg.maxGenerations {
      var g := Generation(cfg, rand, gen, st);
      if g.Continue? {
        RunFromStoppedAt(cfg, rand, gen + 1, g.next);
        RunFromFront(cfg, rand, gen, st);
        var r := RunFrom(cfg, rand, gen, st).1;
        if r.Ok? && r.value.reached {
          AfterFront(cfg, rand, gen, st, r.value.generations - gen);
        }
      }
    }
  }

  /**
   * `(True, g)` names the generation that stopped the run: every generation
   * from `gen` up to `g` went on to the next, and generation `g` bred the
   * target and returned.
   */
  lemma RunFromReached(cfg: Config, rand: Stream, gen: int, st: RunState)
    requires Running(cfg, st) && Scorable(cfg) && st.targetFitness == 1.0
    ensures var (final, r) := RunFrom(cfg, rand, gen, st);
      r.Ok? && r.value.reached ==>
        var g := r.value.generations;
        && gen <= g < cfg.maxGenerations && cfg.target in final.population
        && After(cfg, rand, gen, st, g - gen).Some?
        && Generation(cfg, rand, g, After(cfg, rand, gen, st, g - gen).value) == Stop(final, r)
        && cfg.target in Breeding(cfg, rand, After(cfg, rand, gen, st, g - gen).value).children
  {
    RunFromStoppedAt(cfg, rand, gen, st);
    var (final, r) := RunFrom(cfg, rand, gen, st);
    if r.Ok? && r.value.reached {
      var g := r.value.generations;
      GenerationOutcome(cfg, rand, g, After(cfg, rand, gen, st, g - gen).value);
    }
  }

  /** When `n` generations from `gen` went on, so did each generation `at = gen + k` with `k < n`. */
  lemma {:induction false} AfterContinued(cfg: Config, rand: Stream, gen: int, st: RunState, n: nat, k: nat, at: int)
    requires Running(cfg, st)
    requires k < n && After(cfg, rand, gen, st, n).Some? && at == gen + k
    ensures After(cfg, rand, gen, st, k).Some?
    ensures Generation(cfg, rand, at, After(cfg, rand, gen, st, k).value).Continue?
    decreases k
  {
    AfterFront(cfg, rand, gen, st, n);
    if k > 0 {
      AfterFront(cfg, rand, gen, st, k);
      AfterContinued(cfg, rand, gen + 1, Generation(cfg, rand, gen, st).next, n - 1, k - 1, at);
    }
  }

  /**
   * When the generations from `gen` went on past generation `gen + k`, that
   * generation did not breed the target.
   */
  lemma AfterMissed(cfg: Config, rand: Stream, gen: int, st: RunState, n: nat, k: nat)
    requires Running(cfg, st) && Scorable(cfg) && st.targetFitness == 1.0
    requires k < n && After(cfg, rand, gen, st, n).Some?
    ensures After(cfg, rand, gen, st, k).Some?
    ensures cfg.target !in Breeding(cfg, rand, After(cfg, rand, gen, st, k).value).children
  {
    AfterContinued(cfg, rand, gen, st, n, k, gen + k);
    GenerationOutcome(cfg, rand, gen + k, After(cfg, rand, gen, st, k).value);
  }

  /**
   * Otherwise the result is `(False, max_generations)`; if a generation
   * ran, the last bred population has `2 * Pairs` genomes, none of them
   * the target, all weighed; if none ran, nothing changed.
   */
  lemma {:induction false} RunFromExhausted(cfg: Config, rand: Stream, gen: int, st: RunState)
    requires Running(cfg, st) && Scorable(cfg) && st.targetFitness == 1.0
    ensures var (final, r) := RunFrom(cfg, rand, gen, st);
      && (r.Ok? && !r.value.reached ==> r.value.generations == cfg.maxGenerations)
      && (r.Ok? && !r.value.reached && gen < cfg.maxGenerations ==>
            && |final.population| == 2 * Pairs(cfg.populationSize)
            && cfg.target !in final.population
            && AllSized(final.population, |cfg.target|)
            && Weigh(cfg, final.population) == Ok(final.weighted))
      && (r.Ok? && !r.value.reached && gen <= cfg.maxGenerations ==>
            After(cfg, rand, gen, st, cfg.maxGenerations - gen) == Some(final))
      && (gen >= cfg.maxGenerations ==> final == st && r == Ok(Outcome(false, cfg.maxGenerations)))
    decreases cfg.maxGenerations - gen
  {
    if gen < cfg.maxGenerations {
      GenerationOutcome(cfg, rand, gen, st);
      var g := Generation(cfg, rand, gen, st);
      if g.Continue? {
        RunFromExhausted(cfg, rand, gen + 1, g.next);
        assert RunFrom(cfg, rand, gen, st) == RunFrom(cfg, rand, gen + 1, g.next);
        if gen + 1 >= cfg.maxGenerations {
          assert RunFrom(cfg, rand, gen + 1, g.next).0 == g.next;
        }
        AfterFront(cfg, rand, gen, st, cfg.maxGenerations - gen);
      }
    }
  }

  /**
   * `optimize()` as a whole. It raises exactly when the target is empty and
   * either the edit distance scores it or some pair is bred; `(True, g)`
   * names a generation `0 <= g < max_generations` that bred the target;
   * otherwise the result is `(False, max_generations)`. Without any
   * generation the population is the one it started with: the initial
   * population is never checked against the target.
   */
  lemma OptimizedOutcome(cfg: Config, rand: Stream, st: RunState)
    requires Startable(cfg, st)
    ensures var (final, r) := Optimized(cfg, rand, st);
      && (r.Err? <==> |cfg.target| == 0 && (cfg.kind == Levenshtein || (Pairs(cfg.populationSize) > 0 && cfg.maxGenerations > 0)))
      && (r.Ok? ==> final.targetFitness == 1.0)
      && (r.Ok? && r.value.reached ==> 0 <= r.value.generations < cfg.maxGenerations && cfg.target in final.population)
      && (r.Ok? && !r.value.reached ==> r.value.generations == cfg.maxGenerations)
      && (r.Ok? && !r.value.reached && cfg.maxGenerations > 0 ==>
            |final.population| == 2 * Pairs(cfg.populationSize) && cfg.target !in final.population)
      && (r.Ok? && cfg.maxGenerations <= 0 ==>
            !r.value.reached && final.population == st.population && Weigh(cfg, final.population) == Ok(final.weighted))
  {
    WeighShape(cfg, st.population, 0, []);
    var w := Weigh(cfg, st.population);
    if w.Ok? && Scorable(cfg) {
      TargetFitnessIsOne(cfg.kind, cfg.target);
      var start := st.(weighted := w.value, targetFitness := 1.0);
      WeighedIsRunning(cfg, start);
      RunFromRaises(cfg, rand, 0, start);
      RunFromReached(cfg, rand, 0, start);
      RunFromExhausted(cfg, rand, 0, start);
    }
  }

  /**
   * The generation count `optimize()` returns. `(True, g)`: generations
   * `0` to `g - 1` each bred a population without the target, and
   * generation `g` bred the target and returned. `(False,
   * max_generations)`: every one of the `max_generations` generations ran,
   * none bred the target, and the final state is the one the last left.
   */
  lemma OptimizedFirstHit(cfg: Config, rand: Stream, st: RunState)
    requires Startable(cfg, st)
    ensures var (final, r) := Optimized(cfg, rand, st);
      r.Ok? ==> Started(cfg, st).Some? && Started(cfg, st).value.targetFitness == 1.0
    ensures var (final, r) := Optimized(cfg, rand, st);
      r.Ok? && r.value.reached ==>
        var start := Started(cfg, st).value;
        var g := r.value.generations;
        && 0 <= g < cfg.maxGenerations
        && (forall k :: 0 <= k < g ==>
              After(cfg, rand, 0, start, k).Some? && cfg.target !in Breeding(cfg, rand, After(cfg, rand, 0, start, k).value).children)
        && After(cfg, rand, 0, start, g).Some?
        && Generation(cfg, rand, g, After(cfg, rand, 0, start, g).value) == Stop(final, r)
        && cfg.target in Breeding(cfg, rand, After(cfg, rand, 0, start, g).value).children
    ensures var (final, r) := Optimized(cfg, rand, st);
      r.Ok? && !r.value.reached && cfg.maxGenerations >= 0 ==>
        var start := Started(cfg, st).value;
        && (forall k :: 0 <= k < cfg.maxGenerations ==>
              After(cfg, rand, 0, start, k).Some? && cfg.target !in Breeding(cfg, rand, After(cfg, rand, 0, start, k).value).children)
        && After(cfg, rand, 0, start, cfg.maxGenerations) == Some(final)
  {
    var (final, r) := Optimized(cfg, rand, st);
    if r.Ok? {
      var start := Started(cfg, st).value;
      TargetFitnessIsOne(cfg.kind, cfg.target);
      assert Optimized(cfg, rand, st) == RunFrom(cfg, rand, 0, start);
      RunFromReached(cfg, rand, 0, start);
      RunFromExhausted(cfg, rand, 0, start);
      if r.value.reached {
        var g := r.value.generations;
        forall k | 0 <= k < g
          ensures After(cfg, rand, 0, start, k).Some? && cfg.target !in Breeding(cfg, rand, After(cfg, rand, 0, start, k).value).children
        {
          AfterMissed(cfg, rand, 0, start, g, k);
        }
      } else if cfg.maxGenerations >= 0 {
        forall k | 0 <= k < cfg.maxGenerations
          ensures After(cfg, rand, 0, start, k).Some? && cfg.target !in Breeding(cfg, rand, After(cfg, rand, 0, start, k).value).children
        {
          AfterMissed(cfg, rand, 0, start, cfg.maxGenerations, k);
        }
      }
    }
  }

  // ---------------------------------------------------------------------
  // Characters the run can produce
  // ---------------------------------------------------------------------

  predicate DrawableGenomes(pop: seq<Genome>) {
    forall i :: 0 <= i < |pop| ==> AllDrawable(pop[i])
  }

  predicate DrawableWeighted(w: Weighted) {
    forall i :: 0 <= i < |w| ==> AllDrawable(w[i].0)
  }

  /** Parents drawn from drawable genomes breed drawable children. */
  lemma BreedPairDrawable(size: nat, rand: Stream, weighted: Weighted, cur: nat)
    requires Breedable(weighted, size) && DrawableWeighted(weighted)
    ensures BreedPair(size, rand, weighted, cur).Ok? ==>
      AllDrawable(BreedPair(size, rand, weighted, cur).value.0) && AllDrawable(BreedPair(size, rand, weighted, cur).value.1)
  {
    var dna1 := Pick(weighted, rand(cur));
    var dna2 := Pick(weighted, rand(cur + 1));
    PickIsMember(weighted, rand(cur));
    PickIsMember(weighted, rand(cur + 1));
    MutatedDrawable(dna1, size, rand, cur + 2);
    MutatedDrawable(dna2, size, rand, cur + 2 + 2 * size);
    if size > 0 {
      var mutated1 := Mutated(dna1, size, rand, cur + 2);
      var mutated2 := Mutated(dna2, size, rand, cur + 2 + 2 * size);
      SpliceDrawable(mutated1, mutated2, RandRange(0, size, rand(cur + 2 + 4 * size)));
    }
  }

  /** The breeding loop appends only drawable genomes. */
  lemma {:induction false} BreedFromDrawable(size: nat, rand: Stream, weighted: Weighted, remaining: nat, children: seq<Genome>, cur: nat)
    requires remaining > 0 ==> Breedable(weighted, size)
    requires DrawableWeighted(weighted) && DrawableGenomes(children)
    ensures DrawableGenomes(BreedFrom(size, rand, weighted, remaining, children, cur).children)
    decreases remaining
  {
    if remaining > 0 {
      BreedPairDrawable(size, rand, weighted, cur);
      var r := BreedPair(size, rand, weighted, cur);
      if r.Ok? {
        var more := children + [r.value.0, r.value.1];
        assert DrawableGenomes(more);
        BreedFromDrawable(size, rand, weighted, remaining - 1, more, cur + PairDraws(size));
      }
    }
  }

  /** A weighing keeps the genomes it weighs. */
  lemma WeighedDrawable(cfg: Config, pop: seq<Genome>, w: Weighted)
    requires Weighed(cfg, pop, w, |pop|) && DrawableGenomes(pop)
    ensures DrawableWeighted(w)
  {
    forall i | 0 <= i < |w| ensures AllDrawable(w[i].0) {
      assert w[i].0 == pop[i];
    }
  }

  /** From drawable parents a generation breeds, and weighs, only drawable genomes. */
  lemma GenerationDrawable(cfg: Config, rand: Stream, gen: int, st: RunState)
    requires Running(cfg, st) && Scorable(cfg) && st.targetFitness == 1.0
    requires DrawableWeighted(st.weighted)
    ensures var g := Generation(cfg, rand, gen, st);
      && (g.Stop? ==> DrawableGenomes(g.final.population))
      && (g.Continue? ==> DrawableWeighted(g.next.weighted))
  {
    GenerationOutcome(cfg, rand, gen, st);
    var b := Breeding(cfg, rand, st);
    BreedFromDrawable(|cfg.target|, rand, st.weighted, Pairs(cfg.populationSize), [], st.drawn);
    var g := Generation(cfg, rand, gen, st);
    if g.Continue? {
      WeighShape(cfg, b.children, 0, []);
      WeighedDrawable(cfg, b.children, g.next.weighted);
    } else if g.result.Err? {
      BreedFromShape(|cfg.target|, rand, st.weighted, Pairs(cfg.populationSize), [], st.drawn);
    }
  }

  /**
   * A target holding a character outside codes 32 to 125 (`'~'`, say) is
   * never reached once the parents are drawable: no generation can breed it.
   */
  lemma {:induction false} RunFromNeverReaches(cfg: Config, rand: Stream, gen: int, st: RunState)
    requires Running(cfg, st) && Scorable(cfg) && st.targetFitness == 1.0
    requires DrawableWeighted(st.weighted) && !AllDrawable(cfg.target)
    ensures !(RunFrom(cfg, rand, gen, st).1.Ok? && RunFrom(cfg, rand, gen, st).1.value.reached)
    decreases cfg.maxGenerations - gen
  {
    if gen < cfg.maxGenerations {
      GenerationOutcome(cfg, rand, gen, st);
      GenerationDrawable(cfg, rand, gen, st);
      var g := Generation(cfg, rand, gen, st);
      if g.Continue? {
        RunFromNeverReaches(cfg, rand, gen + 1, g.next);
        assert RunFrom(cfg, rand, gen, st) == RunFrom(cfg, rand, gen + 1, g.next);
      }
    }
  }

  /** `optimize()` from a drawable population never reaches a target with an undrawable character. */
  lemma OptimizedNeverReaches(cfg: Config, rand: Stream, st: RunState)
    requires Startable(cfg, st) && DrawableGenomes(st.population) && !AllDrawable(cfg.target)
    ensures !(Optimized(cfg, rand, st).1.Ok? && Optimized(cfg, rand, st).1.value.reached)
  {
    WeighShape(cfg, st.population, 0, []);
    var w := Weigh(cfg, st.population);
    if w.Ok? && Scorable(cfg) {
      TargetFitnessIsOne(cfg.kind, cfg.target);
      var start := st.(weighted := w.value, targetFitness := 1.0);
      WeighedIsRunning(cfg, start);
      WeighedDrawable(cfg, st.population, w.value);
      RunFromNeverReaches(cfg, rand, 0, start);
    }
  }
}
