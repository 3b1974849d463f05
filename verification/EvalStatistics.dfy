/** The reliability metrics of the evaluation harness (src/evaluation/statistics.ts), over exact
    reals: `passAtK` and `passPowerK`, and the Wilson score interval. */
module EvalStatistics {
  import opened Combinatorics
  import opened Prelude

  // ----- pass@k -----

  /** The estimator that the product loop is meant to compute. */
  function PassAtKValue(successes: nat, trials: nat, k: int): real {
    if trials == 0 || k <= 0 then 0.0
    else if trials < k || trials < successes then 1.0
    else
      BinomialRange(trials, k);
      1.0 - Binomial(trials - successes, k) as real / Binomial(trials, k) as real
  }

  lemma TooFewFailures(successes: nat, trials: nat, k: int)
    requires trials > 0 && k > 0 && trials - successes < k
    ensures PassAtKValue(successes, trials, k) == 1.0
  {
    if successes <= trials && k <= trials {
      BinomialRange(trials - successes, k);
      BinomialRange(trials, k);
      ZeroQuotient(Binomial(trials, k) as real);
    }
  }

  /** Chance that `k` draws without replacement miss, with `m` of `n` misses at the start. */
  function MissChance(m: nat, n: nat, k: nat): real
    requires k <= n
  {
    BinomialRange(n, k);
    Binomial(m, k) as real / Binomial(n, k) as real
  }

  lemma NoDraw(m: nat, n: nat)
    ensures MissChance(m, n, 0) == 1.0
  {
    OneQuotient();
  }

  lemma NextDraw(m: nat, n: nat, i: nat)
    requires i < m <= n
    ensures MissChance(m, n, i) * ((m - i) as real / (n - i) as real) == MissChance(m, n, i + 1)
  {
    BinomialRange(n, i);
    BinomialRange(n, i + 1);
    FailureStep(m, n, i);
  }

  method PassAtK(successes: nat, trials: nat, k: int) returns (p: real)
    ensures p == PassAtKValue(successes, trials, k)
  {
    if trials == 0 || k <= 0 {
      return 0.0;
    }
    if trials - successes < k {
      TooFewFailures(successes, trials, k);
      return 1.0;
    }
    var failureProbability := FailureProbability(trials - successes, trials, k);
    return 1.0 - failureProbability;
  }

  /** The product loop. */
  method FailureProbability(failures: nat, trials: nat, k: nat) returns (p: real)
    requires k <= failures <= trials
    ensures p == MissChance(failures, trials, k)
  {
    p := 1.0;
    NoDraw(failures, trials);
    for index := 0 to k
      invariant p == MissChance(failures, trials, index)
    {
      NextDraw(failures, trials, index);
      p := p * ((failures - index) as real / (trials - index) as real);
    }
  }

  lemma EqualFractions(x: real, y: real, u: real, v: real)
    requires y != 0.0 && v != 0.0 && x * v == u * y
    ensures x / y == u / v
  {
    assert x / y * y == x && u / v * v == u;
    assert (x / y - u / v) * (y * v) == 0.0;
  }

  lemma FractionTimes(x: real, y: real, u: real, v: real)
    requires y != 0.0 && v != 0.0
    ensures y * v != 0.0 && x / y * (u / v) == (x * u) / (y * v)
  {
    assert x / y * y == x && u / v * v == u;
    assert (x / y * (u / v)) * (y * v) == x * u;
    EqualFractions(x / y * (u / v), 1.0, x * u, y * v);
  }

  lemma FailureStep(m: nat, n: nat, i: nat)
    requires i < m <= n
    requires Binomial(n, i) > 0 && Binomial(n, i + 1) > 0
    ensures Binomial(m, i) as real / Binomial(n, i) as real * ((m - i) as real / (n - i) as real)
            == Binomial(m, i + 1) as real / Binomial(n, i + 1) as real
  {
    BinomialNext(m, i);
    BinomialNext(n, i);
    IntegerRatioStep(Binomial(m, i), Binomial(n, i), Binomial(m, i + 1), Binomial(n, i + 1), m - i, n - i, i + 1);
  }

  lemma IntegerRatioStep(a: int, b: int, c: int, d: int, x: int, y: int, z: int)
    requires b != 0 && d != 0 && y != 0 && z * c == x * a && z * d == y * b
    ensures a as real / b as real * (x as real / y as real) == c as real / d as real
  {
    CastProduct(z, c);
    CastProduct(x, a);
    CastProduct(z, d);
    CastProduct(y, b);
    FractionTimes(a as real, b as real, x as real, y as real);
    CrossMultiply(a as real, b as real, c as real, d as real, x as real, y as real, z as real);
    EqualFractions(a as real * x as real, b as real * y as real, c as real, d as real);
  }

  lemma CastProduct(a: int, b: int)
    ensures (a * b) as real == a as real * b as real
  {
  }

  lemma CrossMultiply(a: real, b: real, c: real, d: real, x: real, y: real, z: real)
    requires z * c == x * a && z * d == y * b
    ensures (a * x) * d == c * (b * y)
  {
    assert (a * x) * d == (z * c) * d;
    assert c * (b * y) == c * (z * d);
  }

  /** pass@k is the fraction of the k-element samples of the trials that contain a success. */
  lemma PassAtKIsSampleFraction(trials: set<nat>, successes: set<nat>, k: nat)
    requires successes <= trials && 1 <= k <= |trials| && |successes| <= |trials|
    ensures var samples := KSubsets(trials, k);
            var hits := set b | b in samples && b * successes != {};
            |samples| > 0 && PassAtKValue(|successes|, |trials|, k) == |hits| as real / |samples| as real
  {
    var samples := KSubsets(trials, k);
    var hits := set b | b in samples && b * successes != {};
    var misses := KSubsets(trials - successes, k);
    MissesAndHits(trials, successes, k);
    KSubsetsCount(trials, k);
    KSubsetsCount(trials - successes, k);
    BinomialRange(|trials|, k);
    assert |trials - successes| == |trials| - |successes| by {
      assert trials == (trials - successes) + successes;
    }
    Complement(|hits| as real, |misses| as real, |samples| as real);
  }

  lemma MissesAndHits(trials: set<nat>, successes: set<nat>, k: nat)
    requires successes <= trials
    ensures var hits := set b | b in KSubsets(trials, k) && b * successes != {};
            |KSubsets(trials, k)| == |hits| + |KSubsets(trials - successes, k)|
  {
    var samples := KSubsets(trials, k);
    var hits := set b | b in samples && b * successes != {};
    var misses := KSubsets(trials - successes, k);
    forall b | b in samples
      ensures b in misses <==> b * successes == {}
    {
      if b * successes == {} {
        assert forall x :: x in b ==> x !in b * successes;
      } else {
        var x :| x in b * successes;
      }
    }
    assert samples == hits + misses;
    DisjointSizes(hits, misses);
  }

  lemma CancelReal(x: real, y: real, f: real)
    requires f != 0.0 && x * f == y * f
    ensures x == y
  {
    assert x * f / f == x && y * f / f == y;
  }

  lemma Complement(hits: real, misses: real, all: real)
    requires all > 0.0 && all == hits + misses
    ensures 1.0 - misses / all == hits / all
  {
    var u, v := misses / all, hits / all;
    assert u * all == misses && v * all == hits;
    assert (1.0 - u) * all == all - u * all;
    CancelReal(1.0 - u, v, all);
  }

  /** With fewer trials than samples asked for, the value is 1 even without a single success. */
  lemma WithoutSuccessZeroIffEnoughTrials(trials: nat, k: int)
    requires trials > 0 && k > 0
    ensures PassAtKValue(0, trials, k) == 0.0 <==> k <= trials
  {
    if k <= trials {
      BinomialRange(trials, k);
      assert Binomial(trials, k) as real / Binomial(trials, k) as real == 1.0;
    }
  }

  // ----- pass^k -----

  /** `base ** exponent` for a positive exponent. */
  function Power(base: real, exponent: nat): real {
    if exponent == 0 then 1.0 else base * Power(base, exponent - 1)
  }

  function PassPowerK(successes: nat, trials: nat, k: int): real {
    if trials == 0 || k <= 0 then 0.0 else Power(successes as real / trials as real, k)
  }

  lemma {:induction false} PowerInUnit(x: real, k: nat)
    requires 0.0 <= x <= 1.0
    ensures 0.0 <= Power(x, k) <= 1.0
    ensures k > 0 ==> Power(x, k) <= x
    decreases k
  {
    if k > 0 {
      PowerInUnit(x, k - 1);
      FactorInUnit(x, Power(x, k - 1));
    }
  }

  lemma FactorInUnit(x: real, y: real)
    requires 0.0 <= x && 0.0 <= y <= 1.0
    ensures 0.0 <= x * y <= x
  {
  }

  lemma UnitFraction(s: nat, n: nat)
    requires s <= n && n > 0
    ensures 0.0 <= s as real / n as real <= 1.0
    ensures (n - s) as real / n as real == 1.0 - s as real / n as real
  {
    var p := s as real / n as real;
    assert p * n as real == s as real;
    assert p >= 0.0 by { NonNegativeQuotient(s as real, n as real); }
    NonNegativeQuotient((n - s) as real, n as real);
    Complement(n as real - s as real, s as real, n as real);
  }

  lemma NonNegativeQuotient(x: real, y: real)
    requires x >= 0.0 && y > 0.0
    ensures x / y >= 0.0
  {
    assert x / y * y == x;
  }

  lemma SmallerFactor(m: nat, n: nat, i: nat)
    requires i < n && m <= n && i <= m
    ensures 0.0 <= (m - i) as real / (n - i) as real <= m as real / n as real
  {
    var a, b := (m - i) as real / (n - i) as real, m as real / n as real;
    NonNegativeQuotient((m - i) as real, (n - i) as real);
    assert a * (n - i) as real == (m - i) as real && b * n as real == m as real;
    UnitFraction(m, n);
    assert (b - a) * (n - i) as real == i as real * (1.0 - b);
    assert i as real * (1.0 - b) >= 0.0;
  }

  /** Drawing without replacement misses no more often than drawing with replacement. */
  lemma {:induction false} MissesBelowPower(m: nat, n: nat, k: nat)
    requires m <= n && k <= n && n > 0 && Binomial(n, k) > 0
    ensures 0.0 <= Binomial(m, k) as real / Binomial(n, k) as real <= Power(m as real / n as real, k)
    decreases k
  {
    var x := m as real / n as real;
    UnitFraction(m, n);
    if k > m {
      BinomialRange(m, k);
      PowerInUnit(x, k);
      ZeroQuotient(Binomial(n, k) as real);
    } else if k > 0 {
      BinomialRange(n, k - 1);
      MissesBelowPower(m, n, k - 1);
      MissesStep(m, n, k, x, Power(x, k - 1), Power(x, k));
    } else {
      OneQuotient();
    }
  }

  lemma ZeroQuotient(y: real)
    requires y != 0.0
    ensures 0.0 / y == 0.0
  {
  }

  lemma OneQuotient()
    ensures 1.0 / 1.0 == 1.0
  {
  }

  lemma MissesStep(m: nat, n: nat, k: nat, x: real, before: real, after: real)
    requires 1 <= k <= m <= n && Binomial(n, k) > 0 && Binomial(n, k - 1) > 0
    requires x == m as real / n as real && after == x * before
    requires 0.0 <= Binomial(m, k - 1) as real / Binomial(n, k - 1) as real <= before
    ensures 0.0 <= Binomial(m, k) as real / Binomial(n, k) as real <= after
  {
    FailureStep(m, n, k - 1);
    SmallerFactor(m, n, k - 1);
    ProductBounds(Binomial(m, k - 1) as real / Binomial(n, k - 1) as real,
                  (m - (k - 1)) as real / (n - (k - 1)) as real, before, x);
  }

  lemma ProductBounds(a: real, b: real, c: real, d: real)
    requires 0.0 <= a <= c && 0.0 <= b <= d
    ensures 0.0 <= a * b <= d * c
  {
    assert a * b <= a * d <= c * d;
  }

  /** The chain between the two metrics: always succeeding <= succeeding <= succeeding at least once. */
  lemma ReliabilityChain(s: nat, n: nat, k: nat)
    requires s <= n && 1 <= k <= n
    ensures var p := s as real / n as real;
            PassPowerK(s, n, k) <= p <= 1.0 - Power(1.0 - p, k) <= PassAtKValue(s, n, k) <= 1.0
  {
    UnitFraction(s, n);
    BinomialRange(n, k);
    PowerInUnit(s as real / n as real, k);
    PowerInUnit(1.0 - s as real / n as real, k);
    MissesBelowPower(n - s, n, k);
  }

  /** passPowerK never exceeds passAtK, whatever the sample size. */
  lemma PassPowerNeverExceedsPassAtK(s: nat, n: nat, k: int)
    requires s <= n
    ensures PassPowerK(s, n, k) <= PassAtKValue(s, n, k)
  {
    if n > 0 && k > 0 {
      if k <= n {
        ReliabilityChain(s, n, k);
      } else {
        UnitFraction(s, n);
        PowerInUnit(s as real / n as real, k);
      }
    }
  }

  // ----- pass@k is an unbiased estimator -----

  /** f(0) + ... + f(below - 1). */
  function Sum(f: nat -> real, below: nat): real {
    if below == 0 then 0.0 else Sum(f, below - 1) + f(below - 1)
  }

  function Shift(f: nat -> real): nat -> real {
    (s: nat) => if s == 0 then 0.0 else f(s - 1)
  }

  lemma {:induction false} SumShift(f: nat -> real, below: nat)
    ensures Sum(Shift(f), below + 1) == Sum(f, below)
    decreases below
  {
    if below > 0 {
      SumShift(f, below - 1);
    } else {
      SumOfOne(Shift(f));
    }
  }

  lemma SumOfOne(f: nat -> real)
    ensures Sum(f, 1) == f(0)
  {
    assert Sum(f, 1) == Sum(f, 0) + f(0);
  }

  /** At `s`, `f` is the combination a g + b h. */
  ghost predicate Combines(f: nat -> real, g: nat -> real, h: nat -> real, a: real, b: real, s: nat) {
    f(s) == a * g(s) + b * h(s)
  }

  lemma {:induction false} SumCombination(f: nat -> real, g: nat -> real, h: nat -> real, a: real, b: real, below: nat)
    requires forall s: nat :: s < below ==> Combines(f, g, h, a, b, s)
    ensures Sum(f, below) == a * Sum(g, below) + b * Sum(h, below)
    decreases below
  {
    if below > 0 {
      SumCombination(f, g, h, a, b, below - 1);
      assert Combines(f, g, h, a, b, below - 1);
      Distribute(a, Sum(g, below - 1), g(below - 1), Sum(g, below));
      Distribute(b, Sum(h, below - 1), h(below - 1), Sum(h, below));
    } else {
      Distribute(a, 0.0, 0.0, 0.0);
      Distribute(b, 0.0, 0.0, 0.0);
    }
  }

  lemma {:induction false} SumStops(f: nat -> real, end: nat, below: nat)
    requires end <= below && forall s: nat :: end <= s < below ==> f(s) == 0.0
    ensures Sum(f, below) == Sum(f, end)
    decreases below
  {
    if end < below { SumStops(f, end, below - 1); }
  }

  lemma Distribute(y: real, a: real, b: real, sum: real)
    requires sum == a + b
    ensures y * sum == y * a + y * b
    ensures y * 0.0 == 0.0
  {
  }

  /** The powers of `x` as a function of the exponent. */
  function Powers(x: real): nat -> real {
    (k: nat) => Power(x, k)
  }

  /** Term `s` of the expansion of (p + q)^n from the powers `ps` of p and `qs` of q; with q = 1 - p,
      the probability of exactly `s` successes in `n` independent trials. */
  function Weight(n: nat, ps: nat -> real, qs: nat -> real, s: nat): real {
    if s <= n then Term(Binomial(n, s), ps(s), qs(n - s)) else 0.0
  }

  function Term(patterns: nat, x: real, y: real): real {
    patterns as real * (x * y)
  }

  function Weights(n: nat, ps: nat -> real, qs: nat -> real): nat -> real {
    (s: nat) => Weight(n, ps, qs, s)
  }

  ghost predicate ArePowers(x: real, f: nat -> real) {
    f(0) == 1.0 && forall k: nat {:trigger f(k + 1)} :: f(k + 1) == x * f(k)
  }

  lemma NextPower(x: real, f: nat -> real, k: nat)
    requires ArePowers(x, f)
    ensures f(k + 1) == x * f(k)
  {
  }

  lemma PowersArePowers(x: real)
    ensures ArePowers(x, Powers(x))
  {
  }

  lemma FirstWeight(n: nat, q: real, ps: nat -> real, qs: nat -> real)
    requires ps(0) == 1.0 && ArePowers(q, qs)
    ensures Weight(n + 1, ps, qs, 0) == q * Weight(n, ps, qs, 0)
  {
    NextPower(q, qs, n);
    WeightAtEnd(qs(n), qs(n + 1), q);
  }

  lemma LastWeight(n: nat, p: real, ps: nat -> real, qs: nat -> real)
    requires qs(0) == 1.0 && ArePowers(p, ps)
    ensures Weight(n + 1, ps, qs, n + 1) == p * Weight(n, ps, qs, n)
  {
    BinomialDiagonal(n);
    BinomialDiagonal(n + 1);
    NextPower(p, ps, n);
    WeightAtEnd(ps(n), ps(n + 1), p);
  }

  lemma WeightIs(n: nat, ps: nat -> real, qs: nat -> real, s: nat, b: nat, y: real, w: real)
    requires s <= n && b == Binomial(n, s) && y == qs(n - s) && w == Weight(n, ps, qs, s)
    ensures w == Term(b, ps(s), y)
  {
  }

  /** Pascal's rule for three named weights. */
  lemma PascalWeights(n: nat, p: real, q: real, ps: nat -> real, qs: nat -> real, s: nat, w: real, u: real, v: real)
    requires ArePowers(p, ps) && ArePowers(q, qs) && 1 <= s <= n
    requires w == Weight(n + 1, ps, qs, s) && u == Weight(n, ps, qs, s) && v == Weight(n, ps, qs, s - 1)
    ensures w == q * u + p * v
  {
    var a, b, c := PascalRow(n, s);
    WeightIs(n + 1, ps, qs, s, c, qs(n + 1 - s), w);
    WeightIs(n, ps, qs, s, b, qs(n - s), u);
    assert n - (s - 1) == n + 1 - s;
    WeightIs(n, ps, qs, s - 1, a, qs(n + 1 - s), v);
    NextPower(p, ps, s - 1);
    NextPower(q, qs, n - s);
    PascalNamed(a, b, c, ps(s - 1), ps(s), qs(n - s), qs(n + 1 - s), p, q, w, u, v);
  }

  lemma PascalNamed(a: nat, b: nat, c: nat, x: real, x': real, y: real, y': real, p: real, q: real, w: real, u: real,
                    v: real)
    requires c == a + b && x' == p * x && y' == q * y
    requires w == Term(c, x', y') && u == Term(b, x', y) && v == Term(a, x, y')
    ensures w == q * u + p * v
  {
    PascalWeight(a, b, c, x, x', y, y', p, q);
  }

  lemma PascalRow(n: nat, s: nat) returns (a: nat, b: nat, c: nat)
    requires 1 <= s <= n
    ensures a == Binomial(n, s - 1) && b == Binomial(n, s) && c == Binomial(n + 1, s) && c == a + b
  {
    a, b, c := Binomial(n, s - 1), Binomial(n, s), Binomial(n + 1, s);
  }

  lemma WeightsAtEnds(n: nat, p: real, q: real, ps: nat -> real, qs: nat -> real, s: nat)
    requires ArePowers(p, ps) && ArePowers(q, qs) && s > n
    ensures Weight(n + 1, ps, qs, s) == q * Weight(n, ps, qs, s) + p * Weight(n, ps, qs, s - 1)
  {
    Distribute(q, 0.0, 0.0, 0.0);
    if s == n + 1 { LastWeight(n, p, ps, qs); } else { Distribute(p, 0.0, 0.0, 0.0); }
  }

  lemma WeightPascal(n: nat, p: real, q: real, ps: nat -> real, qs: nat -> real, s: nat)
    requires ArePowers(p, ps) && ArePowers(q, qs)
    ensures Weight(n + 1, ps, qs, s)
            == q * Weight(n, ps, qs, s) + (if s == 0 then 0.0 else p * Weight(n, ps, qs, s - 1))
  {
    if s == 0 {
      FirstWeight(n, q, ps, qs);
    } else if s <= n {
      PascalWeights(n, p, q, ps, qs, s, Weight(n + 1, ps, qs, s), Weight(n, ps, qs, s), Weight(n, ps, qs, s - 1));
    } else {
      WeightsAtEnds(n, p, q, ps, qs, s);
    }
  }

  lemma WeightAtEnd(y: real, y': real, q: real)
    requires y' == q * y
    ensures Term(1, 1.0, y') == q * Term(1, 1.0, y) && Term(1, y', 1.0) == q * Term(1, y, 1.0)
  {
  }

  lemma PascalWeight(a: nat, b: nat, c: nat, x: real, x': real, y: real, y': real, p: real, q: real)
    requires c == a + b && x' == p * x && y' == q * y
    ensures Term(c, x', y') == q * Term(b, x', y) + p * Term(a, x, y')
  {
    assert c as real * (x' * y') == a as real * (x' * y') + b as real * (x' * y');
    assert b as real * (x' * y') == q * (b as real * (x' * y));
    assert a as real * (x' * y') == p * (a as real * (x * y'));
  }

  lemma WeightsPascal(n: nat, p: real, q: real, ps: nat -> real, qs: nat -> real, s: nat)
    requires ArePowers(p, ps) && ArePowers(q, qs)
    ensures Combines(Weights(n + 1, ps, qs), Weights(n, ps, qs), Shift(Weights(n, ps, qs)), q, p, s)
  {
    WeightPascal(n, p, q, ps, qs, s);
    Distribute(p, 0.0, 0.0, 0.0);
  }

  /** The binomial theorem where p + q = 1. */
  lemma {:induction false} WeightsSumToOne(n: nat, p: real, q: real, ps: nat -> real, qs: nat -> real)
    requires p + q == 1.0 && ArePowers(p, ps) && ArePowers(q, qs)
    ensures Sum(Weights(n, ps, qs), n + 1) == 1.0
    decreases n
  {
    if n == 0 {
      SumOfOne(Weights(0, ps, qs));
      assert Weight(0, ps, qs, 0) == Term(1, 1.0, 1.0);
    } else {
      WeightsSumToOne(n - 1, p, q, ps, qs);
      var now, before := Weights(n, ps, qs), Weights(n - 1, ps, qs);
      forall s: nat
        ensures Combines(now, before, Shift(before), q, p, s)
      {
        WeightsPascal(n - 1, p, q, ps, qs, s);
      }
      SumOfOneMore(now, before, p, q, n);
    }
  }

  lemma SumOfOneMore(now: nat -> real, before: nat -> real, p: real, q: real, n: nat)
    requires p + q == 1.0 && before(n) == 0.0 && Sum(before, n) == 1.0
    requires forall s: nat :: Combines(now, before, Shift(before), q, p, s)
    ensures Sum(now, n + 1) == 1.0
  {
    SumShift(before, n);
    SumStops(before, n, n + 1);
    SumCombination(now, before, Shift(before), q, p, n + 1);
    UnitCombination(q, p, Sum(before, n + 1), Sum(Shift(before), n + 1));
  }

  lemma UnitCombination(q: real, p: real, a: real, b: real)
    requires p + q == 1.0 && a == 1.0 && b == 1.0
    ensures q * a + p * b == 1.0
  {
  }

  lemma {:induction false} PowersAdd(x: real, f: nat -> real, a: nat, b: nat)
    requires ArePowers(x, f)
    ensures f(a + b) == f(a) * f(b)
    decreases a
  {
    if a > 0 {
      PowersAdd(x, f, a - 1, b);
      NextPower(x, f, a - 1);
      NextPower(x, f, a - 1 + b);
      assert x * (f(a - 1) * f(b)) == (x * f(a - 1)) * f(b);
    }
  }

  lemma MissArithmetic(a: nat, b: nat, c: nat, d: nat, r: real, x: real, y: real, z: real, yz: real)
    requires c != 0 && a * b == c * d && yz == y * z && r == b as real / c as real
    ensures Term(a, x, yz) * r == y * Term(d, x, z)
  {
    CastProduct(a, b);
    CastProduct(c, d);
    assert r * c as real == b as real;
    assert a as real * r * c as real == d as real * c as real;
    CancelReal(a as real * r, d as real, c as real);
    Regroup(a as real, r, d as real, x, y, z, yz);
  }

  lemma Regroup(a: real, r: real, d: real, x: real, y: real, z: real, yz: real)
    requires a * r == d && yz == y * z
    ensures a * (x * yz) * r == y * (d * (x * z))
  {
    assert a * (x * yz) * r == (a * r) * (x * (y * z));
    assert y * (d * (x * z)) == d * (x * (y * z));
  }

  /** Chance that a sample of `k` misses all `s` successes of `n` trials. */
  function MissRatio(n: nat, k: nat, s: nat): real
    requires k <= n && s <= n
  {
    MissChance(n - s, n, k)
  }

  lemma MissRatioParts(n: nat, k: nat, s: nat, b: nat, c: nat)
    requires k <= n && s <= n && b == Binomial(n - s, k) && c == Binomial(n, k)
    ensures c > 0 && MissRatio(n, k, s) == b as real / c as real
  {
    BinomialRange(n, k);
  }

  lemma TooManySuccesses(n: nat, k: nat, s: nat)
    requires k <= n && s <= n && s > n - k
    ensures MissRatio(n, k, s) == 0.0
  {
    BinomialRange(n - s, k);
    MissRatioParts(n, k, s, 0, Binomial(n, k));
    ZeroQuotient(Binomial(n, k) as real);
  }

  lemma SomeMissed(n: nat, k: nat, s: nat, a: nat, d: nat, r: real, x: real, y: real, z: real, yz: real)
    requires s + k <= n && yz == y * z && a == Binomial(n, s) && d == Binomial(n - k, s) && r == MissRatio(n, k, s)
    ensures Term(a, x, yz) * r == y * Term(d, x, z)
  {
    var b, c := ChooseTwiceParts(n, s, k, a, d, r);
    MissArithmetic(a, b, c, d, r, x, y, z, yz);
  }

  lemma ChooseTwiceParts(n: nat, s: nat, k: nat, a: nat, d: nat, r: real) returns (b: nat, c: nat)
    requires s + k <= n && a == Binomial(n, s) && d == Binomial(n - k, s) && r == MissRatio(n, k, s)
    ensures c != 0 && a * b == c * d && r == b as real / c as real
  {
    b, c := Binomial(n - s, k), Binomial(n, k);
    ChooseTwice(n, s, k);
    MissRatioParts(n, k, s, b, c);
  }

  /** `s` successes in `n` trials, none of them in the sample of `k`, is `k` failures in the sample and
      `s` successes in the other trials. */
  lemma MissWeight(n: nat, k: nat, q: real, ps: nat -> real, qs: nat -> real, s: nat)
    requires 1 <= k <= n && s <= n && ArePowers(q, qs)
    ensures Weight(n, ps, qs, s) * MissRatio(n, k, s) == qs(k) * Weight(n - k, ps, qs, s)
  {
    if s > n - k {
      TooManySuccesses(n, k, s);
      Distribute(Weight(n, ps, qs, s), 0.0, 0.0, MissRatio(n, k, s));
      Distribute(qs(k), 0.0, 0.0, 0.0);
    } else {
      PowersAdd(q, qs, k, n - k - s);
      assert k + (n - k - s) == n - s;
      SomeMissed(n, k, s, Binomial(n, s), Binomial(n - k, s), MissRatio(n, k, s), ps(s),
                 qs(k), qs(n - k - s), qs(n - s));
    }
  }

  /** Contribution of `s` successes to the mean of pass@k. */
  function MeanTerms(n: nat, k: nat, ps: nat -> real, qs: nat -> real): nat -> real {
    (s: nat) => if s <= n then Weight(n, ps, qs, s) * PassAtKValue(s, n, k) else 0.0
  }

  /** Mean of pass@k over `n` independent trials that each succeed with probability `p`. */
  function MeanPassAtK(n: nat, k: nat, p: real): real {
    Sum(MeanTerms(n, k, Powers(p), Powers(1.0 - p)), n + 1)
  }

  lemma MeanTerm(n: nat, k: nat, q: real, ps: nat -> real, qs: nat -> real, minus: real, s: nat)
    requires 1 <= k <= n && s <= n && ArePowers(q, qs) && minus == -qs(k)
    ensures Combines(MeanTerms(n, k, ps, qs), Weights(n, ps, qs), Weights(n - k, ps, qs), 1.0, minus, s)
  {
    MissWeight(n, k, q, ps, qs, s);
    OneMinus(Weight(n, ps, qs, s), MissRatio(n, k, s), PassAtKValue(s, n, k), qs(k), minus, Weight(n - k, ps, qs, s));
  }

  lemma OneMinus(w: real, f: real, g: real, y: real, minus: real, v: real)
    requires g == 1.0 - f && w * f == y * v && minus == -y
    ensures w * g == 1.0 * w + minus * v
  {
    assert w * g == w - w * f;
    assert minus * v == -(y * v);
  }

  lemma MeanOfWeights(n: nat, k: nat, p: real, q: real, ps: nat -> real, qs: nat -> real)
    requires 1 <= k <= n && p + q == 1.0 && ArePowers(p, ps) && ArePowers(q, qs)
    ensures Sum(MeanTerms(n, k, ps, qs), n + 1) == 1.0 - qs(k)
  {
    var terms, all, missed, minus := MeanTerms(n, k, ps, qs), Weights(n, ps, qs), Weights(n - k, ps, qs), -qs(k);
    forall s: nat | s < n + 1
      ensures Combines(terms, all, missed, 1.0, minus, s)
    {
      MeanTerm(n, k, q, ps, qs, minus, s);
    }
    WeightsSumToOne(n, p, q, ps, qs);
    WeightsSumToOne(n - k, p, q, ps, qs);
    MeanFromSums(terms, all, missed, minus, n, n - k);
  }

  lemma MeanFromSums(terms: nat -> real, all: nat -> real, missed: nat -> real, minus: real, n: nat, m: nat)
    requires m <= n && Sum(all, n + 1) == 1.0 && Sum(missed, m + 1) == 1.0
    requires forall s: nat :: m < s ==> missed(s) == 0.0
    requires forall s: nat :: s < n + 1 ==> Combines(terms, all, missed, 1.0, minus, s)
    ensures Sum(terms, n + 1) == 1.0 + minus
  {
    SumCombination(terms, all, missed, 1.0, minus, n + 1);
    SumStops(missed, m + 1, n + 1);
  }

  /** The mean of pass@k is the probability that `k` trials contain a success: the estimator is unbiased. */
  lemma PassAtKIsUnbiased(n: nat, k: nat, p: real)
    requires 1 <= k <= n
    ensures MeanPassAtK(n, k, p) == 1.0 - Power(1.0 - p, k)
  {
    PowersArePowers(p);
    PowersArePowers(1.0 - p);
    MeanOfWeights(n, k, p, 1.0 - p, Powers(p), Powers(1.0 - p));
  }

  // ----- Wilson score interval -----

  datatype Interval = Interval(low: real, high: real)

  /** What the source takes the square root of. */
  function Spread(p: real, n: real, z: real): real
    requires n != 0.0
  {
    p * (1.0 - p) / n + z * z / (4.0 * (n * n))
  }

  function Denominator(n: real, z: real): (d: real)
    requires n > 0.0
    ensures d >= 1.0
  {
    NonNegativeQuotient(z * z, n);
    1.0 + z * z / n
  }

  function Center(p: real, n: real, z: real): real
    requires n > 0.0
  {
    (p + z * z / (2.0 * n)) / Denominator(n, z)
  }

  function Margin(n: real, z: real, root: real): real
    requires n > 0.0
  {
    z / Denominator(n, z) * root
  }

  /** `root` stands for the square root that the source takes; see `IsRoot`. */
  function WilsonInterval(successes: nat, trials: nat, z: real, root: real): Interval {
    if trials == 0 then Interval(0.0, 0.0)
    else
      var n := trials as real;
      var proportion := successes as real / n;
      var center := Center(proportion, n, z);
      var margin := Margin(n, z, root);
      Interval(MaxReal(0.0, center - margin), MinReal(1.0, center + margin))
  }

  /** `root` is the non-negative square root of the spread. */
  ghost predicate IsRoot(successes: nat, trials: nat, z: real, root: real)
    requires trials > 0
  {
    root >= 0.0 && root * root == Spread(successes as real / trials as real, trials as real, z)
  }

  /** `x` is as far from the proportion as `z` standard errors at success rate `x`. */
  ghost predicate OnScoreBoundary(p: real, n: real, z: real, x: real)
    requires n != 0.0
  {
    (p - x) * (p - x) == z * z * (x * (1.0 - x)) / n
  }

  // With w = z^2 / n, d = 1 + w, c the center and m the margin: c d = p + w/2 and (m d)^2 = p (1-p) w + w^2/4.

  ghost predicate WilsonShape(p: real, w: real, c: real, m: real) {
    && 0.0 <= p <= 1.0 && w >= 0.0
    && c * (1.0 + w) == p + w / 2.0
    && (m * (1.0 + w)) * (m * (1.0 + w)) == p * (1.0 - p) * w + w * w / 4.0
  }

  lemma ScoreIdentity(p: real, w: real, c: real, m: real, x: real)
    requires WilsonShape(p, w, c, m)
    ensures (p - x) * (p - x) == w * (x * (1.0 - x)) <==>
            (x - c) * (1.0 + w) * ((x - c) * (1.0 + w)) == (m * (1.0 + w)) * (m * (1.0 + w))
  {
    var d := 1.0 + w;
    var u := x * d;
    assert (x - c) * d == u - (p + w / 2.0);
    var lhs := (p - x) * (p - x) - w * (x * (1.0 - x));
    assert lhs == x * x * d - x * (2.0 * p + w) + p * p;
    assert lhs * d == u * u - u * (2.0 * p + w) + p * p * d;
    var a := p + w / 2.0;
    assert (u - a) * (u - a) == u * u - u * (2.0 * p + w) + a * a;
    assert a * a - p * p * d == p * (1.0 - p) * w + w * w / 4.0;
    assert (u - a) * (u - a) - (m * d) * (m * d) == lhs * d;
    if lhs * d == 0.0 { CancelReal(lhs, 0.0, d); }
  }

  lemma EqualSquares(a: real, b: real)
    requires a * a == b * b
    ensures a == b || a == -b
  {
    assert (a - b) * (a + b) == 0.0;
  }

  lemma ScoreRoots(p: real, w: real, c: real, m: real, x: real)
    requires WilsonShape(p, w, c, m)
    ensures (p - x) * (p - x) == w * (x * (1.0 - x)) <==> x == c - m || x == c + m
  {
    var d := 1.0 + w;
    ScoreIdentity(p, w, c, m, x);
    if x == c + m {
      assert x - c == m;
    } else if x == c - m {
      assert x - c == -m;
      assert (x - c) * d == -(m * d);
    } else if (x - c) * d * ((x - c) * d) == (m * d) * (m * d) {
      EqualSquares((x - c) * d, m * d);
      if (x - c) * d == m * d { CancelReal(x - c, m, d); } else { CancelReal(x - c, -m, d); }
    }
  }

  lemma SquareNonNegative(a: real)
    ensures a * a >= 0.0
  {
  }

  lemma ZeroProduct(a: real, b: real)
    requires a * b == 0.0
    ensures a == 0.0 || b == 0.0
  {
    if a != 0.0 { assert a * b / a == b; }
  }

  lemma NonNegativeProduct(a: real, b: real)
    requires a >= 0.0 && b >= 0.0
    ensures a * b >= 0.0
  {
  }

  lemma PositiveProductOfReals(a: real, b: real)
    requires a > 0.0 && b > 0.0
    ensures a * b > 0.0
  {
  }

  lemma NonNegativeFactor(w: real, y: real)
    requires w > 0.0 && w * y >= 0.0
    ensures y >= 0.0
  {
    if y < 0.0 { PositiveProductOfReals(w, -y); }
  }

  /** A point on the score boundary is a probability. */
  lemma BoundaryInUnit(p: real, w: real, x: real)
    requires 0.0 <= p <= 1.0 && w >= 0.0 && (p - x) * (p - x) == w * (x * (1.0 - x))
    ensures 0.0 <= x <= 1.0
  {
    SquareNonNegative(p - x);
    if w == 0.0 {
      assert (p - x) * (p - x) == 0.0;
      ZeroProduct(p - x, p - x);
    } else {
      NonNegativeFactor(w, x * (1.0 - x));
      ParabolaInside(x);
    }
  }

  lemma ParabolaInside(x: real)
    requires x * (1.0 - x) >= 0.0
    ensures 0.0 <= x <= 1.0
  {
    if x < 0.0 { PositiveProductOfReals(-x, 1.0 - x); }
    if x > 1.0 { PositiveProductOfReals(x, x - 1.0); }
  }

  /** The proportion lies between the two roots. */
  lemma ProportionInside(p: real, w: real, c: real, m: real)
    requires WilsonShape(p, w, c, m) && m >= 0.0
    ensures c - m <= p <= c + m
  {
    OffsetWithinMargin(p, w, c, m, p - c, 1.0 + w);
  }

  lemma OffsetWithinMargin(p: real, w: real, c: real, m: real, a: real, d: real)
    requires 0.0 <= p <= 1.0 && w >= 0.0 && m >= 0.0 && a == p - c && d == 1.0 + w
    requires c * d == p + w / 2.0 && (m * d) * (m * d) == p * (1.0 - p) * w + w * w / 4.0
    ensures -m <= a <= m
  {
    NonNegativeProduct(m, d);
    CenterOffset(p, w, c, a, d);
    OffsetBelowMargin(p, w, a * d, m * d);
    BoundedBySquare(a * d, m * d);
    DivideBound(a, m, d);
  }

  lemma CenterOffset(p: real, w: real, c: real, a: real, d: real)
    requires d == 1.0 + w && c * d == p + w / 2.0 && a == p - c
    ensures a * d == p * w - w / 2.0
  {
    assert a * d == p * d - c * d;
    assert p * d == p + p * w;
  }

  lemma OffsetBelowMargin(p: real, w: real, g: real, h: real)
    requires 0.0 <= p <= 1.0 && w >= 0.0 && g == p * w - w / 2.0 && h * h == p * (1.0 - p) * w + w * w / 4.0
    ensures h * h >= g * g
  {
    NonNegativeProduct(p, 1.0 - p);
    NonNegativeProduct(w, w);
    NonNegativeProduct(p * (1.0 - p), w + w * w);
    assert g * g == p * p * w * w - p * w * w + w * w / 4.0;
    assert p * (1.0 - p) * (w + w * w) == p * (1.0 - p) * w + p * w * w - p * p * w * w;
  }

  lemma SquareGrows(h: real, g: real)
    requires 0.0 <= h < g
    ensures h * h < g * g
  {
    PositiveProductOfReals(g - h, g + h);
    assert (g - h) * (g + h) == g * g - h * h;
  }

  lemma BoundedBySquare(g: real, h: real)
    requires h >= 0.0 && h * h >= g * g
    ensures -h <= g <= h
  {
    if g > h { SquareGrows(h, g); }
    if -g > h { SquareGrows(h, -g); }
  }

  lemma DivideBound(a: real, m: real, d: real)
    requires d > 0.0 && -(m * d) <= a * d <= m * d
    ensures -m <= a <= m
  {
    NonNegativeFactor(d, m - a);
    NonNegativeFactor(d, a + m);
  }

  lemma ShapeOfWilson(s: nat, n: nat, z: real, root: real)
    requires s <= n && n > 0 && IsRoot(s, n, z, root)
    ensures var p, r := s as real / n as real, n as real;
            WilsonShape(p, z * z / r, Center(p, r, z), Margin(r, z, root))
  {
    var p, r := s as real / n as real, n as real;
    var w := z * z / r;
    UnitFraction(s, n);
    NonNegativeQuotient(z * z, r);
    HalfQuotient(z * z, r);
    DivideThenMultiply(p + z * z / (2.0 * r), Denominator(r, z));
    MarginTimes(z, Denominator(r, z), root);
    SquareOfMargin(p, r, z, root, w);
  }

  lemma HalfQuotient(x: real, r: real)
    requires r > 0.0
    ensures x / (2.0 * r) == x / r / 2.0
  {
    EqualFractions(x, 2.0 * r, x / r, 2.0);
  }

  lemma MarginTimes(z: real, d: real, root: real)
    requires d != 0.0
    ensures z / d * root * d == z * root
  {
    assert z / d * d == z;
    assert z / d * root * d == (z / d * d) * root;
  }

  lemma SquareOfMargin(p: real, r: real, z: real, root: real, w: real)
    requires r > 0.0 && w == z * z / r && root * root == Spread(p, r, z)
    ensures (z * root) * (z * root) == p * (1.0 - p) * w + w * w / 4.0
  {
    var v := p * (1.0 - p);
    var a, b := v / r, z * z / (4.0 * (r * r));
    assert w * r == z * z;
    assert a * r == v;
    var q := w / r;
    assert q * r == w;
    QuarterQuotient(z * z, r, r, w, q);
    Scale(root * root, a + b, z * z);
    assert (z * root) * (z * root) == (root * root) * (z * z);
    assert (a + b) * (z * z) == a * (z * z) + b * (z * z);
    FirstPart(a, r, v, w, z * z);
    SecondPart(q, r, w, b, z * z);
  }

  lemma QuarterQuotient(zz: real, r: real, s: real, w: real, q: real)
    requires r > 0.0 && s > 0.0 && w * r == zz && q * s == w
    ensures zz / (4.0 * (r * s)) == q / 4.0
  {
    PositiveProductOfReals(r, s);
    Scale(q * s, w, r);
    var y := 4.0 * (r * s);
    assert q * y == 4.0 * (q * s * r);
    EqualFractions(zz, y, q, 4.0);
  }

  lemma Scale(a: real, b: real, c: real)
    requires a == b
    ensures a * c == b * c
  {
  }

  lemma FirstPart(a: real, r: real, v: real, w: real, zz: real)
    requires a * r == v && w * r == zz
    ensures a * zz == v * w
  {
    Scale(a * r, v, w);
    Scale(w * r, zz, a);
    assert a * r * w == w * r * a;
  }

  lemma SecondPart(q: real, r: real, w: real, b: real, zz: real)
    requires q * r == w && w * r == zz && b == q / 4.0
    ensures b * zz == w * w / 4.0
  {
    FirstPart(q, r, w, w, zz);
    assert b * zz == q * zz / 4.0;
  }

  lemma BoundaryForm(p: real, n: real, z: real, x: real)
    requires n > 0.0
    ensures OnScoreBoundary(p, n, z, x) <==> (p - x) * (p - x) == z * z / n * (x * (1.0 - x))
  {
    var y := x * (1.0 - x);
    assert z * z * y / n == z * z / n * y by {
      DivideThenMultiply(z * z, n);
      DivideThenMultiply(z * z * y, n);
      assert z * z / n * y * n == (z * z / n * n) * y;
      CancelReal(z * z * y / n, z * z / n * y, n);
    }
  }

  /** `x` solves the score equation, with w = z^2 / n. */
  ghost predicate SolvesScore(p: real, w: real, x: real) {
    (p - x) * (p - x) == w * (x * (1.0 - x))
  }

  lemma BoundaryIsSolution(p: real, n: real, z: real, w: real, x: real)
    requires n > 0.0 && w == z * z / n
    ensures OnScoreBoundary(p, n, z, x) <==> SolvesScore(p, w, x)
  {
    BoundaryForm(p, n, z, x);
  }

  lemma SolutionsOfShape(p: real, w: real, c: real, m: real)
    requires WilsonShape(p, w, c, m)
    ensures 0.0 <= c - m <= 1.0 && 0.0 <= c + m <= 1.0
    ensures forall x :: SolvesScore(p, w, x) <==> x == c - m || x == c + m
  {
    forall x ensures SolvesScore(p, w, x) <==> x == c - m || x == c + m { ScoreRoots(p, w, c, m, x); }
    assert SolvesScore(p, w, c - m) && SolvesScore(p, w, c + m);
    BoundaryInUnit(p, w, c - m);
    BoundaryInUnit(p, w, c + m);
  }

  lemma BoundariesOfShape(p: real, n: real, z: real, w: real, c: real, m: real)
    requires n > 0.0 && w == z * z / n && WilsonShape(p, w, c, m)
    ensures 0.0 <= c - m <= 1.0 && 0.0 <= c + m <= 1.0
    ensures forall x :: OnScoreBoundary(p, n, z, x) <==> x == c - m || x == c + m
  {
    SolutionsOfShape(p, w, c, m);
    forall x ensures OnScoreBoundary(p, n, z, x) <==> x == c - m || x == c + m { BoundaryIsSolution(p, n, z, w, x); }
  }

  lemma IntervalParts(s: nat, n: nat, z: real, root: real, c: real, m: real)
    requires n > 0 && c == Center(s as real / n as real, n as real, z) && m == Margin(n as real, z, root)
    requires 0.0 <= c - m <= 1.0 && 0.0 <= c + m <= 1.0
    ensures WilsonInterval(s, n, z, root) == Interval(c - m, c + m)
  {
  }

  /** The two bounds are the two roots of the score equation and nothing else is; both are
      probabilities, so the clamps never change a value. */
  lemma WilsonBoundsAreTheRoots(s: nat, n: nat, z: real, root: real)
    requires s <= n && n > 0 && IsRoot(s, n, z, root)
    ensures var p, r := s as real / n as real, n as real;
            var i := WilsonInterval(s, n, z, root);
            && i == Interval(Center(p, r, z) - Margin(r, z, root), Center(p, r, z) + Margin(r, z, root))
            && 0.0 <= i.low <= 1.0 && 0.0 <= i.high <= 1.0
            && forall x :: OnScoreBoundary(p, r, z, x) <==> x == i.low || x == i.high
  {
    var p, r := s as real / n as real, n as real;
    ShapeOfWilson(s, n, z, root);
    BoundariesOfShape(p, r, z, z * z / r, Center(p, r, z), Margin(r, z, root));
    IntervalParts(s, n, z, root, Center(p, r, z), Margin(r, z, root));
  }

  lemma QuotientSigns(x: real, y: real)
    requires y > 0.0
    ensures x >= 0.0 ==> x / y >= 0.0
    ensures x > 0.0 ==> x / y > 0.0
  {
    DivideThenMultiply(x, y);
    if x >= 0.0 { NonNegativeQuotient(x, y); }
  }

  lemma ZeroFactor(a: real, b: real)
    ensures a == 0.0 ==> a * b == 0.0
  {
  }

  lemma PositiveNamed(a: real, b: real, u: real)
    requires a > 0.0 && b > 0.0 && u == a * b
    ensures u > 0.0
  {
  }

  lemma BothFlipped(a: real, b: real, u: real)
    requires u == a * b
    ensures u == (-a) * (-b)
  {
  }

  lemma PositiveSquare(a: real, b: real, u: real)
    requires a == b && a != 0.0 && u == a * b
    ensures u > 0.0
  {
    if a > 0.0 {
      PositiveNamed(a, b, u);
    } else {
      BothFlipped(a, b, u);
      PositiveNamed(-a, -b, u);
    }
  }

  lemma SumOfQuotients(x: real, n: real, u: real, v: real)
    requires x >= 0.0 && n > 0.0 && u > 0.0 && v > 0.0
    ensures x / n + u / (4.0 * v) > 0.0
  {
    QuotientSigns(x, n);
    QuotientSigns(u, 4.0 * v);
  }

  lemma SpreadFromParts(p: real, n: real, z: real, x: real, u: real, v: real)
    requires n > 0.0 && x == p * (1.0 - p) && u == z * z && v == n * n
    requires x >= 0.0 && u > 0.0 && v > 0.0
    ensures Spread(p, n, z) > 0.0
  {
    SumOfQuotients(x, n, u, v);
  }

  lemma SpreadIsPositive(p: real, n: real, z: real, x: real, u: real, v: real)
    requires 0.0 <= p <= 1.0 && n > 0.0 && z != 0.0
    requires x == p * (1.0 - p) && u == z * z && v == n * n
    ensures Spread(p, n, z) > 0.0
  {
    NonNegativeProduct(p, 1.0 - p);
    PositiveSquare(z, z, u);
    PositiveSquare(n, n, v);
    SpreadFromParts(p, n, z, x, u, v);
  }

  lemma PositiveRoot(root: real, square: real)
    requires root >= 0.0 && root * root == square && square > 0.0
    ensures root > 0.0
  {
    ZeroFactor(root, root);
  }

  /** For a non-zero `z` the root is not 0. */
  lemma RootIsPositive(s: nat, n: nat, z: real, root: real)
    requires s <= n && n > 0 && IsRoot(s, n, z, root) && z != 0.0
    ensures root > 0.0
  {
    var p, r := s as real / n as real, n as real;
    UnitFraction(s, n);
    SpreadIsPositive(p, r, z, p * (1.0 - p), z * z, r * r);
    PositiveRoot(root, Spread(p, r, z));
  }

  lemma InsideIffMargin(p: real, w: real, c: real, m: real)
    requires WilsonShape(p, w, c, m)
    ensures c - m <= p <= c + m <==> m >= 0.0
  {
    if m >= 0.0 { ProportionInside(p, w, c, m); }
  }

  lemma MarginSign(s: nat, n: nat, z: real, root: real)
    requires s <= n && n > 0 && IsRoot(s, n, z, root)
    ensures Margin(n as real, z, root) >= 0.0 <==> z >= 0.0
  {
    SignOfMargin(z, Denominator(n as real, z), root);
    if z < 0.0 { RootIsPositive(s, n, z, root); }
  }

  /** The interval surrounds the observed proportion exactly if `z` is not negative. */
  lemma WilsonSurroundsProportion(s: nat, n: nat, z: real, root: real)
    requires s <= n && n > 0 && IsRoot(s, n, z, root)
    ensures var i := WilsonInterval(s, n, z, root);
            i.low <= s as real / n as real <= i.high <==> z >= 0.0
  {
    var p, r := s as real / n as real, n as real;
    WilsonBoundsAreTheRoots(s, n, z, root);
    ShapeOfWilson(s, n, z, root);
    InsideIffMargin(p, z * z / r, Center(p, r, z), Margin(r, z, root));
    MarginSign(s, n, z, root);
  }

  lemma NegativeQuotient(x: real, y: real)
    requires x < 0.0 && y > 0.0
    ensures x / y < 0.0
  {
    var q := x / y;
    DivideThenMultiply(x, y);
    if q >= 0.0 { NonNegativeProduct(q, y); }
  }

  lemma SignOfMargin(z: real, d: real, root: real)
    requires d > 0.0 && root >= 0.0
    ensures z / d * root >= 0.0 <==> z >= 0.0 || root == 0.0
  {
    DivideThenMultiply(z, d);
    if z >= 0.0 {
      NonNegativeQuotient(z, d);
      NonNegativeProduct(z / d, root);
    } else if root > 0.0 {
      NegativeQuotient(z, d);
      PositiveProductOfReals(-(z / d), root);
    }
  }

  lemma SpreadMirrors(p: real, q: real, n: real, z: real)
    requires n > 0.0 && q == 1.0 - p
    ensures Spread(q, n, z) == Spread(p, n, z)
  {
    assert q * (1.0 - q) == p * (1.0 - p);
  }

  lemma RootMirrors(s: nat, n: nat, z: real, root: real)
    requires s <= n && n > 0 && IsRoot(s, n, z, root)
    ensures IsRoot(n - s, n, z, root)
  {
    UnitFraction(s, n);
    SpreadMirrors(s as real / n as real, (n - s) as real / n as real, n as real, z);
  }

  lemma CenterMirrors(p: real, q: real, n: real, z: real)
    requires n > 0.0 && q == 1.0 - p
    ensures Center(q, n, z) == 1.0 - Center(p, n, z)
  {
    HalfQuotient(z * z, n);
    MirroredCenter(p, z * z / (2.0 * n), Denominator(n, z));
  }

  /** Exchanging successes and failures mirrors the interval. */
  lemma WilsonMirrors(s: nat, n: nat, z: real, root: real)
    requires s <= n && n > 0 && IsRoot(s, n, z, root)
    ensures IsRoot(n - s, n, z, root)
    ensures var i, j := WilsonInterval(s, n, z, root), WilsonInterval(n - s, n, z, root);
            j.low == 1.0 - i.high && j.high == 1.0 - i.low
  {
    UnitFraction(s, n);
    RootMirrors(s, n, z, root);
    WilsonBoundsAreTheRoots(s, n, z, root);
    WilsonBoundsAreTheRoots(n - s, n, z, root);
    CenterMirrors(s as real / n as real, (n - s) as real / n as real, n as real, z);
  }

  lemma MirroredCenter(p: real, h: real, d: real)
    requires d == 1.0 + 2.0 * h && d != 0.0
    ensures (1.0 - p + h) / d == 1.0 - (p + h) / d
  {
    DivideThenMultiply(p + h, d);
    DivideThenMultiply(1.0 - p + h, d);
    assert (1.0 - (p + h) / d) * d == d - (p + h) / d * d;
    CancelReal((1.0 - p + h) / d, 1.0 - (p + h) / d, d);
  }
}
