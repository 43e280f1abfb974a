/**
 * Graham's bound is attained for every number of bins, by 2m + 1 items of weights 2m - 1 down to m + 1, each twice,
 * and three of weight m.
 */
module PackingTightness {
  import opened GrahamBound
  import opened Packing

  function WeightAt(m: nat, i: nat): int {
    if i < 2 * m then 2 * m - 1 - i / 2 else m
  }

  function Items(m: nat): (w: seq<real>)
    ensures |w| == 2 * m + 1 && forall i :: 0 <= i < |w| ==> w[i] == WeightAt(m, i) as real
  {
    seq(2 * m + 1, i requires 0 <= i < 2 * m + 1 => WeightAt(m, i) as real)
  }

  // ---------------------------------------------------------------- Loads of assignments

  /** No item from `lo` on and before `hi` goes into bin `b`. */
  ghost predicate Skips(a: seq<nat>, b: nat, lo: nat, hi: nat)
    requires lo <= hi <= |a|
  {
    forall i :: lo <= i < hi ==> a[i] != b
  }

  lemma {:induction false} LoadSkips(w: seq<real>, a: seq<nat>, b: nat, lo: nat, hi: nat)
    requires lo <= hi <= |w| && hi <= |a| && Skips(a, b, lo, hi)
    ensures Load(w, a, b, hi) == Load(w, a, b, lo)
  {
    if lo < hi { LoadSkips(w, a, b, lo, hi - 1); }
  }

  /** One item at `p`, and none else before `n`. */
  lemma LoadOfOne(w: seq<real>, a: seq<nat>, b: nat, p: nat, n: nat)
    requires p < n <= |w| && n <= |a| && Skips(a, b, 0, p) && a[p] == b && Skips(a, b, p + 1, n)
    ensures Load(w, a, b, n) == w[p]
  {
    LoadSkips(w, a, b, 0, p);
    LoadSkips(w, a, b, p + 1, n);
  }

  /** Two items, at `p` and `q`, and none else before `n`. */
  lemma LoadOfTwo(w: seq<real>, a: seq<nat>, b: nat, p: nat, q: nat, n: nat)
    requires p < q < n <= |w| && n <= |a| && Skips(a, b, 0, p) && a[p] == b && Skips(a, b, p + 1, q) && a[q] == b
    requires Skips(a, b, q + 1, n)
    ensures Load(w, a, b, n) == w[p] + w[q]
  {
    LoadOfOne(w, a, b, p, q);
    LoadSkips(w, a, b, q + 1, n);
  }

  // ---------------------------------------------------------------- What the packing loop does

  /** The second item of bin `b`: the bins fill up from the lightest pair, the first bin of a pair first. */
  function Partner(m: nat, b: nat): int {
    if b % 2 == 1 then 2 * m - b else if b == m - 1 then m else 2 * m - 2 - b
  }

  /** One item into each bin, then a second one, then the last into the first bin. */
  function BinOf(m: nat, i: nat): (b: int)
    requires m >= 1 && i <= 2 * m
    ensures 0 <= b < m
  {
    if i < m then i
    else if i == 2 * m then 0
    else if i % 2 == 0 then 2 * m - 2 - i
    else if i == m then m - 1
    else 2 * m - i
  }

  function Bins(m: nat): (a: seq<nat>)
    requires m >= 1
    ensures |a| == 2 * m + 1 && forall i :: 0 <= i < |a| ==> a[i] == BinOf(m, i)
  {
    seq(2 * m + 1, i requires 0 <= i < 2 * m + 1 => BinOf(m, i))
  }

  lemma PartnerIff(m: nat, b: nat, i: nat)
    requires b < m <= i < 2 * m
    ensures BinOf(m, i) == b <==> i == Partner(m, b)
    ensures m <= Partner(m, b) < 2 * m
  {}

  /** First and second item of a bin weigh 3m - 1 together. */
  lemma PairWeighs(m: nat, b: nat)
    requires b < m
    ensures m <= Partner(m, b) < 2 * m && WeightAt(m, b) + WeightAt(m, Partner(m, b)) == 3 * m - 1
  {}

  /** The loads of the loop before its last item. */
  function LoadBefore(m: nat, b: nat, n: nat): int {
    if n <= b then 0
    else if n <= Partner(m, b) then WeightAt(m, b)
    else 3 * m - 1
  }

  lemma LoadsAre(m: nat, b: nat, n: nat)
    requires b < m && n <= 2 * m
    ensures Load(Items(m), Bins(m), b, n) == LoadBefore(m, b, n) as real
  {
    var w, a, q := Items(m), Bins(m), Partner(m, b);
    forall i: nat | m <= i < 2 * m ensures a[i] == b <==> i == q { PartnerIff(m, b, i); }
    PairWeighs(m, b);
    if n <= b {
      LoadSkips(w, a, b, 0, n);
    } else if n <= q {
      LoadOfOne(w, a, b, b, n);
    } else {
      LoadOfTwo(w, a, b, b, q, n);
    }
  }

  /** The item goes to the first of the least loaded bins. */
  lemma ChoiceIsLeast(m: nat, i: nat, b: nat)
    requires m >= 1 && i <= 2 * m && b < m
    ensures var c := BinOf(m, i);
      LoadBefore(m, c, i) <= LoadBefore(m, b, i) && (b < c ==> LoadBefore(m, c, i) < LoadBefore(m, b, i))
  {
    var c := BinOf(m, i);
    if i < m {
      assert LoadBefore(m, c, i) == 0;
    } else if i < 2 * m {
      PartnerIff(m, c, i);
      PartnerIff(m, b, i);
    } else {
      PairWeighs(m, b);
      PairWeighs(m, c);
    }
  }

  lemma BinsAreGreedy(m: nat)
    requires m >= 1
    ensures Greedy(Items(m), Bins(m), m)
  {
    var w, a := Items(m), Bins(m);
    forall i | 0 <= i < |a| ensures FirstLeast(Loads(w, a, m, i), a[i]) {
      forall b: nat | b < m
        ensures Loads(w, a, m, i)[a[i]] <= Loads(w, a, m, i)[b]
        ensures b < a[i] ==> Loads(w, a, m, i)[a[i]] < Loads(w, a, m, i)[b]
      {
        LoadsAre(m, a[i], i);
        LoadsAre(m, b, i);
        ChoiceIsLeast(m, i, b);
      }
    }
  }

  // ---------------------------------------------------------------- A better assignment

  /** Heavy with light, and the three of weight m together. */
  function BetterBin(m: nat, i: nat): (b: int)
    requires m >= 1
    ensures 0 <= b < m
  {
    if i < m - 1 then i else if i <= 2 * m - 3 then 2 * m - 3 - i else m - 1
  }

  function Better(m: nat): (a: seq<nat>)
    requires m >= 1
    ensures |a| == 2 * m + 1 && forall i :: 0 <= i < |a| ==> a[i] == BetterBin(m, i)
  {
    seq(2 * m + 1, i requires 0 <= i < 2 * m + 1 => BetterBin(m, i))
  }

  lemma BetterPair(m: nat, b: nat)
    requires b < m - 1
    ensures Load(Items(m), Better(m), b, 2 * m + 1) == (3 * m) as real
  {
    var q := 2 * m - 3 - b;
    LoadOfTwo(Items(m), Better(m), b, b, q, 2 * m + 1);
    assert WeightAt(m, b) + WeightAt(m, q) == 3 * m;
  }

  lemma BetterLast(m: nat)
    requires m >= 1
    ensures Load(Items(m), Better(m), m - 1, 2 * m + 1) == (3 * m) as real
  {
    LoadOfTwo(Items(m), Better(m), m - 1, 2 * m - 2, 2 * m - 1, 2 * m);
    assert WeightAt(m, 2 * m - 2) == WeightAt(m, 2 * m - 1) == WeightAt(m, 2 * m) == m;
  }

  lemma BetterLoads(m: nat, b: nat)
    requires b < m
    ensures Load(Items(m), Better(m), b, 2 * m + 1) == (3 * m) as real
  {
    if b < m - 1 { BetterPair(m, b); } else { BetterLast(m); }
  }

  lemma FirstLoad(m: nat)
    requires m >= 1
    ensures Load(Items(m), Bins(m), 0, 2 * m + 1) == (4 * m - 1) as real
  {
    LoadsAre(m, 0, 2 * m);
    PairWeighs(m, 0);
  }

  /** `load` is exactly (4m - 1) / 3m of `best`. */
  ghost predicate AttainsGraham(m: nat, load: real, best: real) {
    3.0 * (m as real * load) == (4.0 * m as real - 1.0) * best
  }

  lemma FactorIsExact(m: nat, load: real, best: real)
    requires load == 4.0 * m as real - 1.0 && best == 3.0 * m as real
    ensures AttainsGraham(m, load, best)
  {
    assert 3.0 * ((m as real) * load) == load * (3.0 * (m as real));
  }

  lemma BetterFits(m: nat)
    requires m >= 1
    ensures FitsWithin(Items(m), Better(m), m, (3 * m) as real)
  {
    forall b: nat | b < m ensures Load(Items(m), Better(m), b, |Items(m)|) <= (3 * m) as real {
      BetterLoads(m, b);
    }
  }

  /**
   * For every number of bins there are items on which the packing loop, longest first, reaches Graham's factor exactly:
   * its first bin gets 4m - 1, where another assignment has no bin above 3m.
   */
  lemma BoundIsAttained(m: nat)
    requires m >= 1
    ensures var w, a := Items(m), Bins(m);
      && a == Pack(w, m, |w|) && Descending(w) && NonNegative(w) && FitsWithin(w, Better(m), m, (3 * m) as real)
      && AttainsGraham(m, Load(w, a, 0, |w|), (3 * m) as real)
  {
    BinsAreGreedy(m);
    GreedyIsPack(Items(m), Bins(m), m, |Items(m)|);
    assert Bins(m)[..|Items(m)|] == Bins(m);
    assert Descending(Items(m)) && NonNegative(Items(m));
    BetterFits(m);
    FirstLoad(m);
    FactorIsExact(m, (4 * m - 1) as real, (3 * m) as real);
  }
}
