/**
 * The two fitness functions of optimizer/genetic_optimizer.py: the
 * character distance of `GeneticOptimizer._calculate_fitness` and the
 * edit distance of `LevenshteinOptimizer`, both turned into
 * 1 / (1 + distance). The subclass override becomes a `FitnessKind`.
 */
module Scoring {
  import opened Wrappers
  import opened Genes

  /** Which optimizer class does the scoring. */
  datatype FitnessKind =
    | CharDistance  // GeneticOptimizer
    | Levenshtein   // LevenshteinOptimizer

  function Abs(x: int): nat {
    if x < 0 then -x else x
  }

  /** The sum of |ord(dna[c]) - ord(target[c])| over the first `k` positions. */
  function CharDistanceSum(dna: Genome, target: Genome, k: nat): nat
    requires k <= |dna| && k <= |target|
  {
    if k == 0 then 0
    else CharDistanceSum(dna, target, k - 1) + Abs(dna[k - 1] as int - target[k - 1] as int)
  }

  /** The character distance is zero exactly when the first `k` characters agree. */
  lemma {:induction false} CharDistanceZeroIff(dna: Genome, target: Genome, k: nat)
    requires k <= |dna| && k <= |target|
    ensures CharDistanceSum(dna, target, k) == 0 <==> dna[..k] == target[..k]
  {
    if k > 0 {
      CharDistanceZeroIff(dna, target, k - 1);
      assert dna[..k] == dna[..k - 1] + [dna[k - 1]];
      assert target[..k] == target[..k - 1] + [target[k - 1]];
      if dna[..k] == target[..k] {
        assert dna[..k - 1] == dna[..k][..k - 1] && target[..k - 1] == target[..k][..k - 1];
        assert dna[k - 1] == dna[..k][k - 1] && target[k - 1] == target[..k][k - 1];
      }
    }
  }

  /** The costs (d, i, s) of `_levenshtein`: deletion, insertion, substitution. */
  datatype Costs = Costs(deletes: int, inserts: int, substitutes: int)

  /** The default `costs=(1, 1, 1)`, which the fitness function uses. */
  const UnitCosts: Costs := Costs(1, 1, 1)

  predicate NonNegative(costs: Costs) {
    costs.deletes >= 0 && costs.inserts >= 0 && costs.substitutes >= 0
  }

  predicate Positive(costs: Costs) {
    costs.deletes >= 1 && costs.inserts >= 1 && costs.substitutes >= 1
  }

  function Min3(a: int, b: int, c: int): (m: int)
    ensures m <= a && m <= b && m <= c
    ensures m == a || m == b || m == c
  {
    if a <= b && a <= c then a else if b <= c then b else c
  }

  /**
   * The value of cell `dist[i][j]` of `_levenshtein`'s table: the cost of
   * turning the first `i` characters of `s` into the first `j` of `t`.
   */
  function EditDistance(s: Genome, t: Genome, costs: Costs, i: nat, j: nat): (d: int)
    requires i <= |s| && j <= |t|
    ensures NonNegative(costs) ==> d >= 0
    decreases i + j
  {
    if i == 0 then j * costs.inserts
    else if j == 0 then i * costs.deletes
    else Min3(EditDistance(s, t, costs, i - 1, j) + costs.deletes,
              EditDistance(s, t, costs, i, j - 1) + costs.inserts,
              EditDistance(s, t, costs, i - 1, j - 1) + (if s[i - 1] == t[j - 1] then 0 else costs.substitutes))
  }

  /** One cell of the symmetry: it holds at `(i, j)` when it holds at the three cells the table fills it from. */
  lemma EditDistanceSymmetricStep(s: Genome, t: Genome, i: nat, j: nat)
    requires 0 < i <= |s| && 0 < j <= |t|
    requires EditDistance(s, t, UnitCosts, i - 1, j) == EditDistance(t, s, UnitCosts, j, i - 1)
    requires EditDistance(s, t, UnitCosts, i, j - 1) == EditDistance(t, s, UnitCosts, j - 1, i)
    requires EditDistance(s, t, UnitCosts, i - 1, j - 1) == EditDistance(t, s, UnitCosts, j - 1, i - 1)
    ensures EditDistance(s, t, UnitCosts, i, j) == EditDistance(t, s, UnitCosts, j, i)
  {
  }

  /**
   * With unit costs, as the fitness function uses, the distance is
   * symmetric: turning `s` into `t` costs what turning `t` into `s` does.
   */
  lemma {:induction false} EditDistanceSymmetric(s: Genome, t: Genome, i: nat, j: nat)
    requires i <= |s| && j <= |t|
    ensures EditDistance(s, t, UnitCosts, i, j) == EditDistance(t, s, UnitCosts, j, i)
    decreases i + j
  {
    if i > 0 && j > 0 {
      EditDistanceSymmetric(s, t, i - 1, j);
      EditDistanceSymmetric(s, t, i, j - 1);
      EditDistanceSymmetric(s, t, i - 1, j - 1);
      EditDistanceSymmetricStep(s, t, i, j);
    } else {
      assert EditDistance(s, t, UnitCosts, i, j) == i + j;
    }
  }

  /** A positive cost paid `n` times is zero only when `n` is. */
  lemma {:induction false} RepeatedCostZeroIff(n: nat, c: int)
    requires c >= 1
    ensures n * c >= n
    ensures n * c == 0 <==> n == 0
  {
    if n > 0 {
      RepeatedCostZeroIff(n - 1, c);
      assert n * c == (n - 1) * c + c;
    }
  }

  /** Two prefixes agree exactly when the shorter prefixes and the last characters do. */
  lemma PrefixSnoc(s: Genome, t: Genome, i: nat, j: nat)
    requires 0 < i <= |s| && 0 < j <= |t|
    ensures s[..i] == t[..j] <==> s[..i - 1] == t[..j - 1] && s[i - 1] == t[j - 1]
  {
    assert s[..i] == s[..i - 1] + [s[i - 1]];
    assert t[..j] == t[..j - 1] + [t[j - 1]];
    if s[..i] == t[..j] {
      assert s[..i - 1] == s[..i][..i - 1] && t[..j - 1] == t[..j][..j - 1];
      assert s[i - 1] == s[..i][i - 1] && t[j - 1] == t[..j][j - 1];
    }
  }

  /** With positive costs the distance is zero exactly when the two prefixes are equal. */
  lemma {:induction false} EditDistanceZeroIff(s: Genome, t: Genome, costs: Costs, i: nat, j: nat)
    requires i <= |s| && j <= |t|
    requires Positive(costs)
    ensures EditDistance(s, t, costs, i, j) == 0 <==> i == j && s[..i] == t[..j]
    decreases i + j
  {
    if i == 0 {
      RepeatedCostZeroIff(j, costs.inserts);
    } else if j == 0 {
      RepeatedCostZeroIff(i, costs.deletes);
    } else {
      var up := EditDistance(s, t, costs, i - 1, j);
      var left := EditDistance(s, t, costs, i, j - 1);
      var diagonal := EditDistance(s, t, costs, i - 1, j - 1);
      var cost := if s[i - 1] == t[j - 1] then 0 else costs.substitutes;
      assert EditDistance(s, t, costs, i, j) == Min3(up + costs.deletes, left + costs.inserts, diagonal + cost);
      assert up >= 0 && left >= 0 && diagonal >= 0;
      EditDistanceZeroIff(s, t, costs, i - 1, j - 1);
      PrefixSnoc(s, t, i, j);
    }
  }

  /** With unit costs the distance is at least the difference in length, |i - j|. */
  lemma {:induction false} EditDistanceLowerBound(s: Genome, t: Genome, i: nat, j: nat)
    requires i <= |s| && j <= |t|
    ensures Abs(i - j) <= EditDistance(s, t, UnitCosts, i, j)
    decreases i + j
  {
    if i > 0 && j > 0 {
      var up := EditDistance(s, t, UnitCosts, i - 1, j);
      var left := EditDistance(s, t, UnitCosts, i, j - 1);
      var diagonal := EditDistance(s, t, UnitCosts, i - 1, j - 1);
      var cost := if s[i - 1] == t[j - 1] then 0 else 1;
      assert EditDistance(s, t, UnitCosts, i, j) == Min3(up + 1, left + 1, diagonal + cost);
      EditDistanceLowerBound(s, t, i - 1, j);
      EditDistanceLowerBound(s, t, i, j - 1);
      EditDistanceLowerBound(s, t, i - 1, j - 1);
    }
  }

  /** With unit costs the distance is at most the longer length, max(i, j). */
  lemma {:induction false} EditDistanceUpperBound(s: Genome, t: Genome, i: nat, j: nat)
    requires i <= |s| && j <= |t|
    ensures EditDistance(s, t, UnitCosts, i, j) <= if i < j then j else i
    decreases i + j
  {
    if i > 0 && j > 0 {
      var diagonal := EditDistance(s, t, UnitCosts, i - 1, j - 1);
      var cost := if s[i - 1] == t[j - 1] then 0 else 1;
      assert EditDistance(s, t, UnitCosts, i, j) <= diagonal + cost;
      EditDistanceUpperBound(s, t, i - 1, j - 1);
    }
  }

  /** `1 / (1 + d)`: positive, at most 1, and 1 exactly for distance 0. */
  function Reciprocal(d: nat): (r: real)
    ensures 0.0 < r <= 1.0
    ensures r == 1.0 <==> d == 0
  {
    var denominator := (1 + d) as real;
    assert denominator >= 1.0;
    var r := 1.0 / denominator;
    assert r * denominator == 1.0;
    r
  }

  /**
   * `_calculate_fitness(dna, target)` of either class. The character
   * distance looks at the first `size` (= dna_size) positions; the edit
   * distance raises for an empty argument.
   */
  function Fitness(kind: FitnessKind, size: nat, dna: Genome, target: Genome): (r: Result<real, Error>)
    requires kind == CharDistance ==> size <= |dna| && size <= |target|
    ensures r.Ok? ==> 0.0 < r.value <= 1.0
    ensures r.Err? <==> kind == Levenshtein && (|dna| == 0 || |target| == 0)
  {
    match kind
    case CharDistance => Ok(Reciprocal(CharDistanceSum(dna, target, size)))
    case Levenshtein =>
      if |dna| == 0 || |target| == 0 then Err(UnboundLocal)
      else Ok(Reciprocal(EditDistance(dna, target, UnitCosts, |dna|, |target|)))
  }

  /**
   * For a genome as long as the target (non-empty for the edit distance)
   * the fitness is defined, it is exactly 1 when the genome is the target,
   * and strictly between 0 and 1 otherwise.
   */
  lemma FitnessIsOneIffTarget(kind: FitnessKind, dna: Genome, target: Genome)
    requires |dna| == |target|
    requires kind == Levenshtein ==> |target| > 0
    ensures Fitness(kind, |target|, dna, target).Ok?
    ensures Fitness(kind, |target|, dna, target).value == 1.0 <==> dna == target
    ensures dna != target ==> 0.0 < Fitness(kind, |target|, dna, target).value < 1.0
  {
    var n := |target|;
    assert dna[..n] == dna && target[..n] == target;
    match kind
    case CharDistance => CharDistanceZeroIff(dna, target, n);
    case Levenshtein => EditDistanceZeroIff(dna, target, UnitCosts, n, n);
  }

  /** The edit-distance fitness of two non-empty strings of any lengths is 1 exactly when they are equal. */
  lemma LevenshteinFitnessIsOneIffEqual(dna: Genome, target: Genome)
    requires |dna| > 0 && |target| > 0
    ensures Fitness(Levenshtein, 0, dna, target).Ok?
    ensures Fitness(Levenshtein, 0, dna, target).value == 1.0 <==> dna == target
  {
    EditDistanceZeroIff(dna, target, UnitCosts, |dna|, |target|);
    assert dna[..|dna|] == dna && target[..|target|] == target;
  }

  /** The fitness of the target against itself, `target_fitness`, is 1. */
  lemma TargetFitnessIsOne(kind: FitnessKind, target: Genome)
    requires kind == Levenshtein ==> |target| > 0
    ensures Fitness(kind, |target|, target, target) == Ok(1.0)
  {
    FitnessIsOneIffTarget(kind, target, target);
  }
}
