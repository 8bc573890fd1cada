/**
 * Genomes, the random draws that drive the optimizer, and the genome
 * operators of optimizer/genetic_optimizer.py that are expressions over a
 * draw: `_random_char`, the per-position rule of `_random_mutate`, the
 * initial population and `_crossover`.
 */
module Genes {
  import opened Wrappers

  /** A candidate string of the population. */
  type Genome = seq<char>

  /** A value of Python's `random.random()`: a real in [0, 1). */
  type Unit = r: real | 0.0 <= r < 1.0

  /**
   * One call into the random generator. `randrange` uses `bits`,
   * `uniform` uses `unit`; both are arbitrary, so every value a call can
   * return is the result of some draw.
   */
  datatype Draw = Draw(bits: nat, unit: Unit)

  /** The generator's successive draws. */
  type Stream = nat -> Draw

  /** The exceptions the optimizer can raise. */
  datatype Error =
    | EmptyRange    // ValueError: randrange(0, 0) in `_crossover` when the target is empty
    | UnboundLocal  // UnboundLocalError: `_levenshtein` of an empty string reads an unbound loop variable

  /** `bits % n`, computed by repeated subtraction. */
  function Reduce(bits: nat, n: nat): (v: nat)
    requires n > 0
    ensures v < n
    decreases bits
  {
    if bits < n then bits else Reduce(bits - n, n)
  }

  /** `Reduce` leaves the remainder: what it takes away is a multiple of `n`. */
  lemma {:induction false} ReduceIsRemainder(bits: nat, n: nat)
    requires n > 0
    ensures exists q: nat :: bits == q * n + Reduce(bits, n)
    decreases bits
  {
    if bits < n {
      assert bits == 0 * n + Reduce(bits, n);
    } else {
      ReduceIsRemainder(bits - n, n);
      var q: nat :| bits - n == q * n + Reduce(bits - n, n);
      assert bits == (q + 1) * n + Reduce(bits, n);
    }
  }

  /** `random.randrange(lo, hi, 1)`: the upper bound is exclusive. */
  function RandRange(lo: int, hi: int, d: Draw): (v: int)
    requires lo < hi
    ensures lo <= v < hi
  {
    lo + Reduce(d.bits, hi - lo)
  }

  /** Every value of the range is produced by some draw. */
  lemma RandRangeOnto(lo: int, hi: int, v: int)
    requires lo <= v < hi
    ensures exists d: Draw :: RandRange(lo, hi, d) == v
  {
    var d := Draw(v - lo, 0.0);
    assert RandRange(lo, hi, d) == v;
  }

  /** `random.uniform(0, hi)`: for a positive bound, a real in [0, hi). */
  function Uniform(hi: real, d: Draw): (v: real)
    ensures hi > 0.0 ==> 0.0 <= v < hi
  {
    var u: real := d.unit;
    if hi > 0.0 then ScaledBelow(hi, u); hi * u else hi * u
  }

  /** A positive bound scaled by a unit value stays in [0, bound). */
  lemma ScaledBelow(hi: real, u: real)
    requires hi > 0.0 && 0.0 <= u < 1.0
    ensures 0.0 <= hi * u < hi
  {
    assert hi - hi * u == hi * (1.0 - u);
  }

  /** Bounds handed to `randrange` by `_random_char`. */
  const CharLow: int := 32
  const CharHigh: int := 126

  /** The characters `_random_char` can produce: codes 32 to 125 ('~' = 126 is never drawn). */
  predicate Drawable(c: char) {
    CharLow <= c as int < CharHigh
  }

  predicate AllDrawable(g: Genome) {
    forall k :: 0 <= k < |g| ==> Drawable(g[k])
  }

  /** `_random_char`: `chr(randrange(32, 126, 1))`. */
  function RandomChar(d: Draw): (c: char)
    ensures Drawable(c)
  {
    RandRange(CharLow, CharHigh, d) as char
  }

  /** `_random_char` reaches every code from 32 to 125 and nothing else. */
  lemma RandomCharExactRange(c: char)
    ensures (exists d: Draw :: RandomChar(d) == c) <==> Drawable(c)
  {
    if Drawable(c) {
      var d := Draw(c as int - CharLow, 0.0);
      assert RandomChar(d) == c;
    }
  }

  /** A genome of `size` fresh characters, one draw each (the inner loop of `_init_population`). */
  function RandomGenome(size: nat, rand: Stream, start: nat): (g: Genome)
    ensures |g| == size && AllDrawable(g)
  {
    var g := seq(size, c requires 0 <= c < size => RandomChar(rand(start + c)));
    assert forall k :: 0 <= k < size ==> g[k] == RandomChar(rand(start + k));
    g
  }

  /** Number of iterations of Python's `range(n)`. */
  function Count(n: int): nat {
    if n < 0 then 0 else n
  }

  /** `_init_population`: genome `i` uses draws `start + i * size` onwards. */
  function InitialPopulation(count: nat, size: nat, rand: Stream, start: nat): (pop: seq<Genome>)
  {
    seq(count, i requires 0 <= i < count => RandomGenome(size, rand, start + i * size))
  }

  predicate AllSized(pop: seq<Genome>, size: nat) {
    forall i :: 0 <= i < |pop| ==> |pop[i]| == size
  }

  /** `_init_population` yields exactly `count` genomes of length `size`, all drawable. */
  lemma InitialPopulationShape(count: nat, size: nat, rand: Stream, start: nat)
    ensures |InitialPopulation(count, size, rand, start)| == count
    ensures AllSized(InitialPopulation(count, size, rand, start), size)
    ensures forall i :: 0 <= i < count ==> AllDrawable(InitialPopulation(count, size, rand, start)[i])
  {
    var pop := InitialPopulation(count, size, rand, start);
    forall i | 0 <= i < count
      ensures |pop[i]| == size && AllDrawable(pop[i])
    {
      assert pop[i] == RandomGenome(size, rand, start + i * size);
    }
  }

  /** The roll of `_random_mutate`: `randrange(0, 100, 1)`; the position mutates when it is 1. */
  function Roll(d: Draw): int {
    RandRange(0, 100, d)
  }

  /**
   * `_random_mutate`: position `c` reads its roll from draw `start + 2 * c`
   * and, when the roll is 1, its replacement from draw `start + 2 * c + 1`.
   */
  function Mutated(dna: Genome, size: nat, rand: Stream, start: nat): (r: Genome)
    requires size <= |dna|
  {
    seq(size, c requires 0 <= c < size =>
      if Roll(rand(start + 2 * c)) == 1 then RandomChar(rand(start + 2 * c + 1)) else dna[c])
  }

  /**
   * The mutated genome has length `size`; a position keeps its character
   * unless its roll is 1, in which case it holds a drawable character.
   */
  lemma MutatedPositions(dna: Genome, size: nat, rand: Stream, start: nat)
    requires size <= |dna|
    ensures |Mutated(dna, size, rand, start)| == size
    ensures forall c :: 0 <= c < size ==>
      if Roll(rand(start + 2 * c)) == 1 then Drawable(Mutated(dna, size, rand, start)[c])
      else Mutated(dna, size, rand, start)[c] == dna[c]
  {
  }

  /** With no roll equal to 1 the genome comes back unchanged (its first `size` characters). */
  lemma MutatedWithoutRollIsIdentity(dna: Genome, size: nat, rand: Stream, start: nat)
    requires size <= |dna|
    requires forall c :: 0 <= c < size ==> Roll(rand(start + 2 * c)) != 1
    ensures Mutated(dna, size, rand, start) == dna[..size]
  {
    var r := Mutated(dna, size, rand, start);
    assert |r| == size;
    forall c | 0 <= c < size
      ensures r[c] == dna[..size][c]
    {
    }
  }

  /** Mutation never introduces a character outside codes 32 to 125. */
  lemma MutatedDrawable(dna: Genome, size: nat, rand: Stream, start: nat)
    requires size <= |dna|
    requires AllDrawable(dna)
    ensures AllDrawable(Mutated(dna, size, rand, start))
  {
    MutatedPositions(dna, size, rand, start);
  }

  /**
   * The two children of `_crossover` once its position `p` is drawn:
   * `mother[:p] + father[p:]` and `father[:p] + mother[p:]`, for a cut
   * inside both parents.
   */
  function Splice(mother: Genome, father: Genome, p: nat): (Genome, Genome)
    requires p <= |mother| && p <= |father|
  {
    (mother[..p] + father[p..], father[..p] + mother[p..])
  }

  /**
   * `_crossover`: the position is `randrange(0, size)`, which raises when
   * `size` is 0; otherwise the parents (mutated genomes, at least `size`
   * long) are split at one point.
   */
  function Crossover(mother: Genome, father: Genome, size: nat, d: Draw): (r: Result<(Genome, Genome), Error>)
    requires size <= |mother| && size <= |father|
    ensures r.Err? <==> size == 0
  {
    if size == 0 then Err(EmptyRange)
    else Ok(Splice(mother, father, RandRange(0, size, d)))
  }

  /**
   * For parents of length `size > 0` the children are the parents cut at
   * one point `p` in [0, size) and rejoined crosswise; both have length
   * `size`.
   */
  lemma CrossoverChildren(mother: Genome, father: Genome, size: nat, d: Draw)
    requires |mother| == size && |father| == size && size > 0
    ensures exists p :: 0 <= p < size &&
              Crossover(mother, father, size, d) == Ok((mother[..p] + father[p..], father[..p] + mother[p..]))
    ensures |Crossover(mother, father, size, d).value.0| == size && |Crossover(mother, father, size, d).value.1| == size
  {
    var p := RandRange(0, size, d);
    assert Crossover(mother, father, size, d) == Ok((mother[..p] + father[p..], father[..p] + mother[p..]));
  }

  /** Every cut point in [0, size) is chosen by some draw. */
  lemma CrossoverAnyPoint(mother: Genome, father: Genome, size: nat, p: nat)
    requires size <= |mother| && size <= |father| && p < size
    ensures exists d :: Crossover(mother, father, size, d) == Ok(Splice(mother, father, p))
  {
    RandRangeOnto(0, size, p);
    var d :| RandRange(0, size, d) == p;
    assert Crossover(mother, father, size, d) == Ok(Splice(mother, father, p));
  }

  /** Splicing the children again at the same point gives back the parents. */
  lemma SpliceInverse(mother: Genome, father: Genome, p: nat)
    requires |mother| == |father| && p <= |mother|
    ensures Splice(Splice(mother, father, p).0, Splice(mother, father, p).1, p) == (mother, father)
  {
    var (c1, c2) := Splice(mother, father, p);
    assert c1[..p] == mother[..p] && c1[p..] == father[p..];
    assert c2[..p] == father[..p] && c2[p..] == mother[p..];
    assert mother[..p] + mother[p..] == mother;
    assert father[..p] + father[p..] == father;
  }

  /** Crossover only redistributes the parents' characters. */
  lemma SpliceConservesCharacters(mother: Genome, father: Genome, p: nat)
    requires p <= |mother| && p <= |father|
    ensures multiset(Splice(mother, father, p).0) + multiset(Splice(mother, father, p).1)
         == multiset(mother) + multiset(father)
  {
    assert mother[..p] + mother[p..] == mother;
    assert father[..p] + father[p..] == father;
    calc {
      multiset(Splice(mother, father, p).0) + multiset(Splice(mother, father, p).1);
      multiset(mother[..p] + father[p..]) + multiset(father[..p] + mother[p..]);
      multiset(mother[..p]) + multiset(father[p..]) + multiset(father[..p]) + multiset(mother[p..]);
      multiset(mother[..p] + mother[p..]) + multiset(father[..p] + father[p..]);
      multiset(mother) + multiset(father);
    }
  }

  /** Children of drawable parents are drawable. */
  lemma SpliceDrawable(mother: Genome, father: Genome, p: nat)
    requires p <= |mother| && p <= |father|
    requires AllDrawable(mother) && AllDrawable(father)
    ensures AllDrawable(Splice(mother, father, p).0) && AllDrawable(Splice(mother, father, p).1)
  {
    var (c1, c2) := Splice(mother, father, p);
    SpliceConservesCharacters(mother, father, p);
    forall k | 0 <= k < |c1| ensures Drawable(c1[k]) {
      assert c1[k] in multiset(c1);
      assert c1[k] in multiset(mother) + multiset(father);
    }
    forall k | 0 <= k < |c2| ensures Drawable(c2[k]) {
      assert c2[k] in multiset(c2);
      assert c2[k] in multiset(mother) + multiset(father);
    }
  }
}
