/** Greedy packing of weighted items into `m` bins, each item into the first bin of least load. The items are the
    ordinary test files of a plan, heaviest first. */
module Packing {
  import Order

  /** The total weight of the first `n` items that assignment `a` puts into bin `b`. */
  function Load(w: seq<real>, a: seq<nat>, b: nat, n: nat): real
    requires n <= |w| && n <= |a|
  {
    if n == 0 then 0.0
    else Load(w, a, b, n - 1) + (if a[n - 1] == b then w[n - 1] else 0.0)
  }

  function Total(w: seq<real>, n: nat): real
    requires n <= |w|
  {
    if n == 0 then 0.0 else Total(w, n - 1) + w[n - 1]
  }

  /** The loads of the first `m` bins, added up. */
  function LoadSum(w: seq<real>, a: seq<nat>, n: nat, m: nat): real
    requires n <= |w| && n <= |a|
  {
    if m == 0 then 0.0 else LoadSum(w, a, n, m - 1) + Load(w, a, m - 1, n)
  }

  function Loads(w: seq<real>, a: seq<nat>, m: nat, n: nat): (r: seq<real>)
    requires n <= |w| && n <= |a|
  {
    seq(m, (b: nat) => Load(w, a, b, n))
  }

  ghost predicate NonNegative(w: seq<real>) {
    forall i :: 0 <= i < |w| ==> w[i] >= 0.0
  }

  ghost predicate Descending(w: seq<real>) {
    forall i, j :: 0 <= i <= j < |w| ==> w[i] >= w[j]
  }

  ghost predicate InBins(a: seq<nat>, m: nat) {
    forall i :: 0 <= i < |a| ==> a[i] < m
  }

  ghost predicate FirstLeast(loads: seq<real>, k: nat) {
    && k < |loads|
    && (forall b :: 0 <= b < |loads| ==> loads[k] <= loads[b])
    && (forall b :: 0 <= b < k ==> loads[k] < loads[b])
  }

  /** The index of the least load; of equal loads, the first. */
  function LeastLoaded(loads: seq<real>): (k: nat)
    requires |loads| > 0
    ensures FirstLeast(loads, k)
  {
    if |loads| == 1 then 0
    else
      var k := LeastLoaded(loads[..|loads| - 1]);
      assert forall b :: 0 <= b < |loads| - 1 ==> loads[..|loads| - 1][b] == loads[b];
      if loads[|loads| - 1] < loads[k] then |loads| - 1 else k
  }

  /** Where the packing loop puts the first `n` items. */
  function Pack(w: seq<real>, m: nat, n: nat): (a: seq<nat>)
    requires m >= 1 && n <= |w|
    ensures |a| == n && InBins(a, m)
  {
    if n == 0 then []
    else
      var a := Pack(w, m, n - 1);
      a + [LeastLoaded(Loads(w, a, m, n - 1))]
  }

  /** Every item was put into a bin that was then the first of least load. */
  ghost predicate Greedy(w: seq<real>, a: seq<nat>, m: nat) {
    && |a| == |w|
    && InBins(a, m)
    && forall i :: 0 <= i < |a| ==> FirstLeast(Loads(w, a, m, i), a[i])
  }

  lemma {:induction false} LoadDependsOnPrefix(w: seq<real>, a: seq<nat>, a': seq<nat>, b: nat, n: nat)
    requires n <= |w| && n <= |a| && n <= |a'|
    requires forall i :: 0 <= i < n ==> a[i] == a'[i]
    ensures Load(w, a, b, n) == Load(w, a', b, n)
  {
    if n > 0 {
      LoadDependsOnPrefix(w, a, a', b, n - 1);
    }
  }

  lemma {:induction false} PackExtends(w: seq<real>, m: nat, k: nat, n: nat)
    requires m >= 1 && k <= n <= |w|
    ensures Pack(w, m, n)[..k] == Pack(w, m, k)
  {
    if k < n {
      PackExtends(w, m, k, n - 1);
      assert Pack(w, m, n)[..k] == Pack(w, m, n - 1)[..k];
    }
  }

  lemma PackIsGreedy(w: seq<real>, m: nat)
    requires m >= 1
    ensures Greedy(w, Pack(w, m, |w|), m)
  {
    var a := Pack(w, m, |w|);
    forall i | 0 <= i < |a| ensures FirstLeast(Loads(w, a, m, i), a[i]) {
      var p := Pack(w, m, i);
      assert a[i] == LeastLoaded(Loads(w, p, m, i)) by {
        PackExtends(w, m, i + 1, |w|);
        assert a[i] == a[..i + 1][i];
      }
      assert a[..i] == p by {
        PackExtends(w, m, i, |w|);
      }
      LoadsDependOnPrefix(w, a, p, m, i);
    }
  }

  lemma GreedyChoice(w: seq<real>, a: seq<nat>, m: nat, n: nat)
    requires m >= 1 && Greedy(w, a, m) && n < |w|
    ensures a[n] == LeastLoaded(Loads(w, a, m, n))
  {
    var loads := Loads(w, a, m, n);
    assert FirstLeast(loads, a[n]) && FirstLeast(loads, LeastLoaded(loads));
  }

  lemma PackChoice(w: seq<real>, m: nat, n: nat)
    requires m >= 1 && n < |w|
    ensures var a := Pack(w, m, |w|); a[n] < m && a[n] == LeastLoaded(Loads(w, a, m, n))
  {
    PackIsGreedy(w, m);
    GreedyChoice(w, Pack(w, m, |w|), m, n);
  }

  lemma GreedyContinues(w: seq<real>, a: seq<nat>, earlier: seq<nat>, m: nat, n: nat)
    requires m >= 1 && Greedy(w, a, m) && n < |w| && a[..n] == earlier
    ensures a[n] == LeastLoaded(Loads(w, earlier, m, n))
  {
    GreedyChoice(w, a, m, n);
    assert earlier[..n] == earlier;
    LoadsDependOnPrefix(w, a, earlier, m, n);
  }

  /** There is one greedy assignment: what the packing loop computes. */
  lemma {:induction false} GreedyIsPack(w: seq<real>, a: seq<nat>, m: nat, n: nat)
    requires m >= 1 && Greedy(w, a, m) && n <= |w|
    ensures a[..n] == Pack(w, m, n)
  {
    if n > 0 {
      var earlier := Pack(w, m, n - 1);
      GreedyIsPack(w, a, m, n - 1);
      GreedyContinues(w, a, earlier, m, n - 1);
      Order.TakeOneMore(a, n - 1);
    }
  }

  lemma LoadsStep(w: seq<real>, a: seq<nat>, m: nat, n: nat)
    requires n < |w| && n < |a| && a[n] < m
    ensures var loads := Loads(w, a, m, n);
      Loads(w, a, m, n + 1) == loads[a[n] := loads[a[n]] + w[n]]
  {}

  lemma LoadsDependOnPrefix(w: seq<real>, a: seq<nat>, a': seq<nat>, m: nat, n: nat)
    requires n <= |w| && n <= |a| && n <= |a'| && a[..n] == a'[..n]
    ensures Loads(w, a, m, n) == Loads(w, a', m, n)
  {
    assert forall i :: 0 <= i < n ==> a[i] == a[..n][i] && a'[i] == a'[..n][i];
    forall b: nat | b < m ensures Load(w, a, b, n) == Load(w, a', b, n) {
      LoadDependsOnPrefix(w, a, a', b, n);
    }
  }

  lemma ChosenIsLeast(w: seq<real>, a: seq<nat>, m: nat, i: nat, b: nat)
    requires Greedy(w, a, m) && i < |a| && b < m
    ensures Load(w, a, a[i], i) <= Load(w, a, b, i)
  {
    var loads := Loads(w, a, m, i);
    assert FirstLeast(loads, a[i]);
    assert loads[a[i]] <= loads[b];
  }

  /** Every assignment spreads the same total over the bins. */
  lemma {:induction false} LoadsAddUpToTotal(w: seq<real>, a: seq<nat>, n: nat, m: nat)
    requires n <= |w| && n <= |a|
    requires forall i :: 0 <= i < n ==> a[i] < m
    ensures LoadSum(w, a, n, m) == Total(w, n)
  {
    if n == 0 {
      EmptyLoads(w, a, m);
    } else {
      LoadsAddUpToTotal(w, a, n - 1, m);
      LoadSumStep(w, a, n, m);
    }
  }

  lemma {:induction false} EmptyLoads(w: seq<real>, a: seq<nat>, m: nat)
    ensures LoadSum(w, a, 0, m) == 0.0
  {
    if m > 0 { EmptyLoads(w, a, m - 1); }
  }

  lemma {:induction false} LoadSumStep(w: seq<real>, a: seq<nat>, n: nat, m: nat)
    requires 1 <= n <= |w| && n <= |a|
    ensures LoadSum(w, a, n, m) == LoadSum(w, a, n - 1, m) + (if a[n - 1] < m then w[n - 1] else 0.0)
  {
    if m > 0 { LoadSumStep(w, a, n, m - 1); }
  }

  /** `x` added up `k` times, so that the proofs about loads stay free of products. */
  function Times(k: nat, x: real): real {
    if k == 0 then 0.0 else Times(k - 1, x) + x
  }

  lemma {:induction false} TimesIsProduct(k: nat, x: real)
    ensures Times(k, x) == k as real * x
  {
    if k > 0 {
      TimesIsProduct(k - 1, x);
      assert (k - 1) as real * x + x == k as real * x;
    }
  }

  lemma {:induction false} LoadSumAtLeast(w: seq<real>, a: seq<nat>, n: nat, m: nat, low: real)
    requires n <= |w| && n <= |a|
    requires forall b :: 0 <= b < m ==> low <= Load(w, a, b, n)
    ensures Times(m, low) <= LoadSum(w, a, n, m)
  {
    if m > 0 {
      LoadSumAtLeast(w, a, n, m - 1, low);
    }
  }

  lemma {:induction false} LoadSumAtMost(w: seq<real>, a: seq<nat>, n: nat, m: nat, high: real)
    requires n <= |w| && n <= |a|
    requires forall b :: 0 <= b < m ==> Load(w, a, b, n) <= high
    ensures LoadSum(w, a, n, m) <= Times(m, high)
  {
    if m > 0 {
      LoadSumAtMost(w, a, n, m - 1, high);
    }
  }

  lemma {:induction false} LoadGrows(w: seq<real>, a: seq<nat>, b: nat, k: nat, n: nat)
    requires k <= n <= |w| && n <= |a| && NonNegative(w)
    ensures 0.0 <= Load(w, a, b, k) <= Load(w, a, b, n)
    decreases n
  {
    if k < n {
      LoadGrows(w, a, b, k, n - 1);
    } else if k > 0 {
      LoadGrows(w, a, b, k - 1, n - 1);
    }
  }

  /** A non-empty bin has a last item, and that item completes the bin's load. */
  lemma {:induction false} LastItem(w: seq<real>, a: seq<nat>, b: nat, n: nat) returns (j: nat)
    requires n <= |w| && n <= |a| && Load(w, a, b, n) != 0.0
    ensures j < n && a[j] == b && Load(w, a, b, n) == Load(w, a, b, j) + w[j]
  {
    if a[n - 1] == b {
      j := n - 1;
    } else {
      j := LastItem(w, a, b, n - 1);
    }
  }

  // ---------------------------------------------------------------- List scheduling

  /** The spread of the loads never exceeds the largest weight, after any number of items. */
  lemma {:induction false} SpreadBounded(w: seq<real>, a: seq<nat>, m: nat, n: nat, wmax: real, b: nat, c: nat)
    requires Greedy(w, a, m) && NonNegative(w) && n <= |w| && b < m && c < m
    requires wmax >= 0.0 && forall i :: 0 <= i < |w| ==> w[i] <= wmax
    ensures Load(w, a, b, n) - Load(w, a, c, n) <= wmax
  {
    if n > 0 {
      SpreadBounded(w, a, m, n - 1, wmax, b, c);
      var t := a[n - 1];
      if t == b {
        ChosenIsLeast(w, a, m, n - 1, c);
      }
    }
  }

  /** Graham's bound for list scheduling in any order: m * L <= total + (m - 1) * wmax. */
  lemma ListSchedulingBound(w: seq<real>, a: seq<nat>, m: nat, wmax: real, b: nat)
    requires m >= 1 && b < m && Greedy(w, a, m) && NonNegative(w)
    requires wmax >= 0.0 && forall i :: 0 <= i < |w| ==> w[i] <= wmax
    ensures m as real * Load(w, a, b, |w|) <= Total(w, |w|) + (m as real - 1.0) * wmax
  {
    var low, last, before := LastPlacement(w, a, m, b);
    ListArithmetic(m, low, last, before, Total(w, |w|), wmax);
  }

  /** The final load of a bin is the load before its last item, at most the average then, plus that item. */
  lemma LastPlacement(w: seq<real>, a: seq<nat>, m: nat, b: nat) returns (low: real, last: real, before: real)
    requires m >= 1 && b < m && Greedy(w, a, m) && NonNegative(w)
    ensures Load(w, a, b, |w|) == low + last && before + last <= Total(w, |w|)
    ensures Times(m, low) <= before
    ensures last == 0.0 || exists i :: 0 <= i < |w| && w[i] == last
  {
    if Load(w, a, b, |w|) == 0.0 {
      low, last, before := 0.0, 0.0, 0.0;
      TotalGrows(w, 0, |w|);
      TimesIsProduct(m, 0.0);
    } else {
      var j := LastItem(w, a, b, |w|);
      low, last, before := Load(w, a, b, j), w[j], Total(w, j);
      LastItemBound(w, a, m, j);
      TotalGrows(w, j + 1, |w|);
    }
  }

  lemma ListArithmetic(m: nat, low: real, last: real, before: real, total: real, wmax: real)
    requires m >= 1 && Times(m, low) <= before && before + last <= total && last <= wmax
    ensures m as real * (low + last) <= total + (m as real - 1.0) * wmax
  {
    TimesIsProduct(m, low);
    assert m as real * (low + last) == m as real * low + m as real * last;
    assert (m as real - 1.0) * last == m as real * last - last;
    ProductMonotone(m as real - 1.0, last, wmax);
  }

  lemma ProductMonotone(x: real, y: real, z: real)
    requires x >= 0.0 && y <= z
    ensures x * y <= x * z
  {
    assert x * (z - y) >= 0.0;
    assert x * (z - y) == x * z - x * y;
  }

  lemma {:induction false} TotalGrows(w: seq<real>, k: nat, n: nat)
    requires k <= n <= |w| && NonNegative(w)
    ensures 0.0 <= Total(w, k) <= Total(w, n)
    decreases n
  {
    if k < n {
      TotalGrows(w, k, n - 1);
    } else if k > 0 {
      TotalGrows(w, k - 1, n - 1);
    }
  }

  /** When item `j` was placed, its bin held at most the average of what had been placed. */
  lemma LastItemBound(w: seq<real>, a: seq<nat>, m: nat, j: nat)
    requires Greedy(w, a, m) && j < |w|
    ensures Times(m, Load(w, a, a[j], j)) <= Total(w, j)
  {
    LoadsAddUpToTotal(w, a, j, m);
    forall b: nat | b < m ensures Load(w, a, a[j], j) <= Load(w, a, b, j) {
      ChosenIsLeast(w, a, m, j, b);
    }
    LoadSumAtLeast(w, a, j, m, Load(w, a, a[j], j));
  }

  // ---------------------------------------------------------------- Which bins stay empty

  function Positives(w: seq<real>): (p: nat)
    ensures p <= |w|
  {
    if |w| == 0 then 0 else Positives(w[..|w| - 1]) + (if w[|w| - 1] > 0.0 then 1 else 0)
  }

  lemma {:induction false} PositivesComeFirst(w: seq<real>, k: nat)
    requires Descending(w) && NonNegative(w) && k < |w|
    ensures w[k] > 0.0 <==> k < Positives(w)
  {
    var front := w[..|w| - 1];
    if k < |w| - 1 {
      PositivesComeFirst(front, k);
    } else if k > 0 {
      PositivesComeFirst(front, k - 1);
      assert w[k - 1] >= w[k];
    }
    if k < |w| - 1 && w[|w| - 1] > 0.0 {
      assert w[k] >= w[|w| - 1];
    }
  }

  ghost predicate Used(a: seq<nat>, b: nat) {
    exists i :: 0 <= i < |a| && a[i] == b
  }

  lemma {:induction false} LoadOfIdentity(w: seq<real>, a: seq<nat>, b: nat, n: nat)
    requires n <= |w| && n <= |a| && forall k :: 0 <= k < n ==> a[k] == k
    ensures Load(w, a, b, n) == if b < n then w[b] else 0.0
  {
    if n > 0 { LoadOfIdentity(w, a, b, n - 1); }
  }

  lemma {:induction false} WeightlessItemsAddNothing(w: seq<real>, a: seq<nat>, b: nat, p: nat, n: nat)
    requires p <= n <= |w| && n <= |a| && forall k :: p <= k < n ==> w[k] == 0.0
    ensures Load(w, a, b, n) == Load(w, a, b, p)
    decreases n
  {
    if p < n { WeightlessItemsAddNothing(w, a, b, p, n - 1); }
  }

  /** The first positive items open one bin each. */
  lemma {:induction false} PositiveItemsOpenBins(w: seq<real>, a: seq<nat>, m: nat, n: nat)
    requires m >= 1 && Greedy(w, a, m) && Descending(w) && NonNegative(w)
    requires n <= Positives(w) && n <= m
    ensures forall k :: 0 <= k < n ==> a[k] == k
  {
    if n > 0 {
      var i := n - 1;
      PositiveItemsOpenBins(w, a, m, i);
      var loads := Loads(w, a, m, i);
      forall b: nat | b < m ensures loads[b] == if b < i then w[b] else 0.0 {
        LoadOfIdentity(w, a, b, i);
      }
      forall b: nat | b < i ensures w[b] > 0.0 {
        PositivesComeFirst(w, b);
      }
      assert FirstLeast(loads, a[i]) && loads[i] == 0.0;
    }
  }

  /** When a bin is left over, every weightless item goes to the first such bin. */
  lemma WeightlessItemsShareOneBin(w: seq<real>, a: seq<nat>, m: nat, i: nat)
    requires m >= 1 && Greedy(w, a, m) && Descending(w) && NonNegative(w)
    requires Positives(w) <= i < |w| && Positives(w) < m
    ensures a[i] == Positives(w)
  {
    var p := Positives(w);
    PositiveItemsOpenBins(w, a, m, p);
    forall k: nat | k < |w| ensures w[k] > 0.0 <==> k < p {
      PositivesComeFirst(w, k);
    }
    var loads := Loads(w, a, m, i);
    forall b: nat | b < m ensures loads[b] == if b < p then w[b] else 0.0 {
      WeightlessItemsAddNothing(w, a, b, p, i);
      LoadOfIdentity(w, a, b, p);
    }
    assert FirstLeast(loads, a[i]) && loads[p] == 0.0;
  }

  lemma UsedWhenBinsAreLeftOver(w: seq<real>, a: seq<nat>, m: nat, b: nat)
    requires m >= 1 && Greedy(w, a, m) && Descending(w) && NonNegative(w) && Positives(w) < m
    ensures Used(a, b) <==> b < Positives(w) || (b == Positives(w) && b < |w|)
  {
    var p := Positives(w);
    PositiveItemsOpenBins(w, a, m, p);
    if b < |w| && b <= p {
      if b == p { WeightlessItemsShareOneBin(w, a, m, b); }
      assert a[b] == b;
    }
    if Used(a, b) {
      var i :| 0 <= i < |a| && a[i] == b;
      if i >= p { WeightlessItemsShareOneBin(w, a, m, i); }
    }
  }

  /** Every bin receives an item exactly when there are enough positive items, or one too few and a
      weightless one. */
  lemma AllBinsUsedIff(w: seq<real>, a: seq<nat>, m: nat)
    requires m >= 1 && Greedy(w, a, m) && Descending(w) && NonNegative(w)
    ensures (forall b: nat :: b < m ==> Used(a, b)) <==>
            (Positives(w) >= m || (Positives(w) == m - 1 && Positives(w) < |w|))
  {
    if Positives(w) >= m {
      PositiveItemsOpenBins(w, a, m, m);
      forall b: nat | b < m ensures Used(a, b) {
        assert a[b] == b;
      }
    } else {
      forall b: nat | b < m
        ensures Used(a, b) <==> b < Positives(w) || (b == Positives(w) && b < |w|)
      {
        UsedWhenBinsAreLeftOver(w, a, m, b);
      }
      assert Used(a, m - 1) <==> m - 1 == Positives(w) && m - 1 < |w|;
    }
  }
}
