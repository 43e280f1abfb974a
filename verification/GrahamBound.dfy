/** How far the greedy packing is from the best one: 2 - 1/m in any order, Graham's 4/3 - 1/(3m) longest first. */
module GrahamBound {
  import opened Packing

  /** `other` is an assignment of the same items to `m` bins whose loads are all at most `best`. */
  ghost predicate FitsWithin(w: seq<real>, other: seq<nat>, m: nat, best: real) {
    && |other| == |w|
    && InBins(other, m)
    && forall b: nat :: b < m ==> Load(w, other, b, |w|) <= best
  }

  lemma EveryItemFits(w: seq<real>, other: seq<nat>, m: nat, best: real, i: nat)
    requires NonNegative(w) && FitsWithin(w, other, m, best) && i < |w|
    ensures 0.0 <= w[i] <= best
  {
    LoadGrows(w, other, other[i], 0, i);
    LoadGrows(w, other, other[i], i + 1, |w|);
  }

  lemma TotalFits(w: seq<real>, other: seq<nat>, m: nat, best: real)
    requires FitsWithin(w, other, m, best)
    ensures Total(w, |w|) <= Times(m, best)
  {
    LoadsAddUpToTotal(w, other, |w|, m);
    LoadSumAtMost(w, other, |w|, m, best);
  }

  lemma BestIsNonNegative(w: seq<real>, other: seq<nat>, m: nat, best: real)
    requires m >= 1 && NonNegative(w) && FitsWithin(w, other, m, best)
    ensures best >= 0.0
  {
    LoadGrows(w, other, 0, 0, |w|);
  }

  /** Greedy packing in any order is within 2 - 1/m of every other assignment. */
  lemma ListSchedulingRatio(w: seq<real>, a: seq<nat>, m: nat, other: seq<nat>, best: real, b: nat)
    requires m >= 1 && b < m && Greedy(w, a, m) && NonNegative(w) && FitsWithin(w, other, m, best)
    ensures m as real * Load(w, a, b, |w|) <= (2.0 * m as real - 1.0) * best
  {
    forall i | 0 <= i < |w| ensures w[i] <= best {
      EveryItemFits(w, other, m, best, i);
    }
    BestIsNonNegative(w, other, m, best);
    TotalFits(w, other, m, best);
    var low, last, before := LastPlacement(w, a, m, b);
    RatioArithmetic(m, low, last, before, best);
  }

  lemma RatioArithmetic(m: nat, low: real, last: real, before: real, best: real)
    requires m >= 1 && Times(m, low) <= before && before + last <= Times(m, best) && last <= best
    ensures m as real * (low + last) <= (2.0 * m as real - 1.0) * best
  {
    TimesIsProduct(m, best);
    ListArithmetic(m, low, last, before, Times(m, best), best);
    assert m as real * best + (m as real - 1.0) * best == (2.0 * m as real - 1.0) * best;
  }

  // ---------------------------------------------------------------- Longest processing time first

  /** Against a last item of weight `last`, an item is double when it cannot share a bin of `best` with it. */
  function Halves(w: seq<real>, best: real, last: real): (v: seq<real>)
    ensures |v| == |w|
  {
    seq(|w|, i requires 0 <= i < |w| => if w[i] > best - last then 2.0 else 1.0)
  }

  /** A bin of the other assignment that stays within `best` takes at most two halves, when every item is
      heavier than a third of `best`. */
  lemma {:induction false} HalvesOfFittingBin(w: seq<real>, other: seq<nat>, b: nat, n: nat, best: real, last: real)
    requires n <= |w| && n <= |other| && 0.0 <= last && best < 3.0 * last
    requires forall i :: 0 <= i < n ==> last <= w[i]
    ensures var v, load := Load(Halves(w, best, last), other, b, n), Load(w, other, b, n);
      || (v == 0.0 && load == 0.0)
      || (v == 1.0 && load >= last)
      || (v == 2.0 && (load >= 2.0 * last || load > best - last))
      || (v >= 3.0 && load > best)
  {
    if n > 0 {
      HalvesOfFittingBin(w, other, b, n - 1, best, last);
    }
  }

  /** A bin that cannot take an item of weight `last` within `best` already holds two halves. */
  lemma {:induction false} HalvesOfFullBin(w: seq<real>, a: seq<nat>, b: nat, n: nat, best: real, last: real)
    requires n <= |w| && n <= |a|
    ensures var v, load := Load(Halves(w, best, last), a, b, n), Load(w, a, b, n);
      || (v == 0.0 && load == 0.0)
      || (v == 1.0 && load <= best - last)
      || v >= 2.0
  {
    if n > 0 {
      HalvesOfFullBin(w, a, b, n - 1, best, last);
    }
  }

  lemma FullBinsHoldTwoHalvesEach(w: seq<real>, a: seq<nat>, m: nat, best: real, last: real, n: nat)
    requires n <= |w| && n <= |a| && InBins(a, m) && last <= best
    requires forall b: nat :: b < m ==> Load(w, a, b, n) > best - last
    ensures Times(m, 2.0) <= Total(Halves(w, best, last), n)
  {
    var v := Halves(w, best, last);
    forall b: nat | b < m ensures 2.0 <= Load(v, a, b, n) {
      HalvesOfFullBin(w, a, b, n, best, last);
    }
    LoadSumAtLeast(v, a, n, m, 2.0);
    LoadsAddUpToTotal(v, a, n, m);
  }

  lemma FittingBinsHoldTwoHalvesEach(w: seq<real>, other: seq<nat>, m: nat, best: real, j: nat)
    requires Descending(w) && NonNegative(w) && FitsWithin(w, other, m, best) && j < |w| && best < 3.0 * w[j]
    ensures Total(Halves(w, best, w[j]), j + 1) <= Times(m, 2.0)
  {
    var v, n := Halves(w, best, w[j]), j + 1;
    forall b: nat | b < m ensures Load(v, other, b, n) <= 2.0 {
      HalvesOfFittingBin(w, other, b, n, best, w[j]);
      LoadGrows(w, other, b, n, |w|);
    }
    LoadSumAtMost(v, other, n, m, 2.0);
    LoadsAddUpToTotal(v, other, n, m);
  }

  /** An item heavier than a third of `best` is never placed so that its bin exceeds `best`: counting halves,
      the other assignment has at most 2m of them up to this item, the greedy one at least 2m before it. */
  lemma HeavyItemFits(w: seq<real>, a: seq<nat>, m: nat, other: seq<nat>, best: real, j: nat)
    requires m >= 1 && Greedy(w, a, m) && Descending(w) && NonNegative(w) && FitsWithin(w, other, m, best)
    requires j < |w| && best < 3.0 * w[j]
    ensures Load(w, a, a[j], j) + w[j] <= best
  {
    EveryItemFits(w, other, m, best, j);
    FittingBinsHoldTwoHalvesEach(w, other, m, best, j);
    if Load(w, a, a[j], j) + w[j] > best {
      forall b: nat | b < m ensures Load(w, a, b, j) > best - w[j] {
        ChosenIsLeast(w, a, m, j, b);
      }
      FullBinsHoldTwoHalvesEach(w, a, m, best, w[j], j);
    }
  }

  /** Either the bin stays within `best`, or its last item is light and the bin was average before it. */
  lemma HeavyOrAverage(w: seq<real>, a: seq<nat>, m: nat, other: seq<nat>, best: real, b: nat)
      returns (low: real, last: real)
    requires m >= 1 && b < m && Greedy(w, a, m) && Descending(w) && NonNegative(w)
    requires FitsWithin(w, other, m, best)
    ensures Load(w, a, b, |w|) == low + last
    ensures low + last <= best || (Times(m, low) + last <= Times(m, best) && 3.0 * last <= best)
  {
    if Load(w, a, b, |w|) == 0.0 {
      low, last := 0.0, 0.0;
      BestIsNonNegative(w, other, m, best);
    } else {
      var j := LastItem(w, a, b, |w|);
      low, last := Load(w, a, b, j), w[j];
      if best < 3.0 * last {
        HeavyItemFits(w, a, m, other, best, j);
      } else {
        LastItemBound(w, a, m, j);
        TotalGrows(w, j + 1, |w|);
        TotalFits(w, other, m, best);
      }
    }
  }

  /** `load` is within Graham's factor (4m - 1) / 3m of `best`. */
  ghost predicate WithinGraham(m: nat, load: real, best: real) {
    3.0 * (m as real * load) <= (4.0 * m as real - 1.0) * best
  }

  /** Graham's bound for longest processing time first: no other assignment of the same items to the same
      number of bins has a maximum load below L * 3m / (4m - 1). */
  lemma LongestFirstBound(w: seq<real>, a: seq<nat>, m: nat, other: seq<nat>, best: real, b: nat)
    requires m >= 1 && b < m && Greedy(w, a, m) && Descending(w) && NonNegative(w)
    requires FitsWithin(w, other, m, best)
    ensures WithinGraham(m, Load(w, a, b, |w|), best)
  {
    BestIsNonNegative(w, other, m, best);
    var low, last := HeavyOrAverage(w, a, m, other, best, b);
    if low + last <= best {
      FittingArithmetic(m, low + last, best);
    } else {
      LightLastArithmetic(m, low, last, best);
    }
  }

  lemma PackBound(w: seq<real>, m: nat, other: seq<nat>, best: real, b: nat) returns (load: real)
    requires m >= 1 && b < m && Descending(w) && NonNegative(w) && FitsWithin(w, other, m, best)
    ensures load == Load(w, Pack(w, m, |w|), b, |w|) && WithinGraham(m, load, best)
  {
    PackIsGreedy(w, m);
    load := Load(w, Pack(w, m, |w|), b, |w|);
    LongestFirstBound(w, Pack(w, m, |w|), m, other, best, b);
  }

  lemma FittingArithmetic(m: nat, load: real, best: real)
    requires m >= 1 && load <= best && best >= 0.0
    ensures WithinGraham(m, load, best)
  {
    var n := m as real;
    ProductMonotone(n, load, best);
    ProductMonotone(best, 3.0 * n, 4.0 * n - 1.0);
  }

  lemma LightLastArithmetic(m: nat, low: real, last: real, best: real)
    requires m >= 1 && Times(m, low) + last <= Times(m, best) && 3.0 * last <= best
    ensures WithinGraham(m, low + last, best)
  {
    TimesIsProduct(m, low);
    TimesIsProduct(m, best);
    LightLastProducts(m as real, low, last, best);
  }

  lemma LightLastProducts(n: real, low: real, last: real, best: real)
    requires n >= 1.0 && n * low + last <= n * best && 3.0 * last <= best
    ensures 3.0 * (n * (low + last)) <= (4.0 * n - 1.0) * best
  {
    var lows, lasts, bests := n * low, n * last, n * best;
    ProductMonotone(n - 1.0, 3.0 * last, best);
    assert (n - 1.0) * (3.0 * last) == 3.0 * lasts - 3.0 * last;
    assert (n - 1.0) * best == bests - best;
    assert (4.0 * n - 1.0) * best == 4.0 * bests - best;
    assert n * (low + last) == lows + lasts;
    assert 3.0 * (lows + lasts) <= 4.0 * bests - best;
  }
}
