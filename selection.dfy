/**
 * Roulette-wheel selection, `GeneticOptimizer._weighted_choice` of
 * optimizer/genetic_optimizer.py, as a specification over the walk's
 * drawn value `n`.
 */
module Selection {
  import opened Wrappers
  import opened Genes

  /** The weighted population: each genome paired with its fitness. */
  type Weighted = seq<(Genome, real)>

  /** The weight of the first `k` items, accumulated from the left as `sum` does. */
  function Prefix(items: Weighted, k: nat): real
    requires k <= |items|
  {
    if k == 0 then 0.0 else Prefix(items, k - 1) + items[k - 1].1
  }

  /** `sum(item[1] for item in items)`. */
  function Total(items: Weighted): real {
    Prefix(items, |items|)
  }

  /** The cumulative weight of items 0 to `i`, both included. */
  function Through(items: Weighted, i: nat): real
    requires i < |items|
  {
    Prefix(items, i + 1)
  }

  predicate NonNegativeWeights(items: Weighted) {
    forall i :: 0 <= i < |items| ==> items[i].1 >= 0.0
  }

  predicate PositiveWeights(items: Weighted) {
    forall i :: 0 <= i < |items| ==> items[i].1 > 0.0
  }

  /**
   * The walk of `_weighted_choice` from position `i` with `n` left: the
   * first item whose weight exceeds what is left of `n`, or `None` when the
   * loop falls off the end.
   */
  function SelectedFrom(items: Weighted, i: nat, n: real): Option<Genome>
    requires i <= |items|
    decreases |items| - i
  {
    if i == |items| then None
    else if items[i].1 > n then Some(items[i].0)
    else SelectedFrom(items, i + 1, n - items[i].1)
  }

  /** The whole walk of `_weighted_choice` for the drawn value `n`. */
  function Selected(items: Weighted, n: real): Option<Genome> {
    SelectedFrom(items, 0, n)
  }

  /** With non-negative weights, the partial sums never decrease. */
  lemma {:induction false} PrefixMonotone(items: Weighted, j: nat, k: nat)
    requires NonNegativeWeights(items)
    requires j <= k <= |items|
    ensures Prefix(items, j) <= Prefix(items, k)
    decreases k
  {
    if j < k {
      PrefixMonotone(items, j, k - 1);
    }
  }

  /** What the walk returns is one of the items. */
  lemma {:induction false} SelectedFromIsMember(items: Weighted, s: nat, n: real)
    requires s <= |items|
    ensures SelectedFrom(items, s, n).Some? ==>
      exists j :: s <= j < |items| && items[j].0 == SelectedFrom(items, s, n).value
    decreases |items| - s
  {
    if s < |items| && items[s].1 <= n {
      SelectedFromIsMember(items, s + 1, n - items[s].1);
    }
  }

  /**
   * Started at `s` with what is left of `n` after the items before `s`,
   * the walk stops at `i`, the first index from `s` on whose cumulative
   * weight exceeds `n`.
   */
  lemma {:induction false} SelectedFromFirstExceeding(items: Weighted, s: nat, n: real, i: nat)
    requires s <= i < |items|
    requires Through(items, i) > n
    requires forall j :: s <= j < i ==> Through(items, j) <= n
    ensures SelectedFrom(items, s, n - Prefix(items, s)) == Some(items[i].0)
    decreases i - s
  {
    assert Through(items, s) == Prefix(items, s) + items[s].1;
    if s < i {
      SelectedFromFirstExceeding(items, s + 1, n, i);
    }
  }

  /**
   * `_weighted_choice` returns the item at the first index whose
   * cumulative weight exceeds `n`.
   */
  lemma SelectedIsFirstExceeding(items: Weighted, n: real, i: nat)
    requires i < |items|
    requires Through(items, i) > n
    requires forall j :: 0 <= j < i ==> Through(items, j) <= n
    ensures Selected(items, n) == Some(items[i].0)
  {
    SelectedFromFirstExceeding(items, 0, n, i);
  }

  /** From `s` on, the walk falls off the end exactly when no cumulative weight exceeds `n`. */
  lemma {:induction false} SelectedFromNoneIff(items: Weighted, s: nat, n: real)
    requires s <= |items|
    ensures SelectedFrom(items, s, n - Prefix(items, s)) == None
        <==> forall j :: s <= j < |items| ==> Through(items, j) <= n
    decreases |items| - s
  {
    if s < |items| {
      assert Through(items, s) == Prefix(items, s) + items[s].1;
      SelectedFromNoneIff(items, s + 1, n);
    }
  }

  /** The walk falls off the end exactly when no cumulative weight exceeds `n`. */
  lemma SelectedNoneIff(items: Weighted, n: real)
    ensures Selected(items, n) == None <==> forall i :: 0 <= i < |items| ==> Through(items, i) <= n
  {
    SelectedFromNoneIff(items, 0, n);
  }

  /** With non-negative weights, the walk from `s` chooses an item exactly when `n` is below the weight left. */
  lemma {:induction false} SelectedFromIffBelow(items: Weighted, s: nat, n: real)
    requires NonNegativeWeights(items)
    requires s <= |items| && n >= 0.0
    ensures SelectedFrom(items, s, n).Some? <==> n < Total(items) - Prefix(items, s)
    decreases |items| - s
  {
    if s < |items| {
      PrefixMonotone(items, s + 1, |items|);
      if items[s].1 <= n {
        SelectedFromIffBelow(items, s + 1, n - items[s].1);
      }
    }
  }

  /**
   * With non-negative weights and `n >= 0`, an item is chosen exactly when
   * `n` is below the total weight; `n >= total` returns `None`.
   */
  lemma SelectedIffBelowTotal(items: Weighted, n: real)
    requires NonNegativeWeights(items)
    requires n >= 0.0
    ensures Selected(items, n).Some? <==> n < Total(items)
  {
    SelectedFromIffBelow(items, 0, n);
  }

  /**
   * Within a run the value drawn is `uniform(0, total)` and every weight is
   * positive, so some item is always chosen.
   */
  lemma DrawnSelectionSucceeds(items: Weighted, d: Draw)
    requires items != [] && PositiveWeights(items)
    ensures Selected(items, Uniform(Total(items), d)).Some?
  {
    PrefixMonotone(items, 1, |items|);
    SelectedIffBelowTotal(items, Uniform(Total(items), d));
  }

  /** The example of the test suite: n = 7.309414879714626 over weights 0.4, 12, 42 picks the second item. */
  lemma SelectionExample()
    ensures Selected([("some string", 0.4), ("test string", 12.0), ("TEST TEST", 42.0)], 7.309414879714626)
         == Some("test string")
  {
  }
}
