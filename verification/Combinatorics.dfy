/** Binomial coefficients: what the product in `passAtK` counts. */
module Combinatorics {

  function Factorial(n: nat): (f: nat)
    ensures f > 0
  {
    if n == 0 then 1 else n * Factorial(n - 1)
  }

  /** Number of ways to choose `k` of `n`, by Pascal's rule. */
  function Binomial(n: nat, k: nat): nat {
    if k == 0 then 1 else if n == 0 then 0 else Binomial(n - 1, k - 1) + Binomial(n - 1, k)
  }

  lemma {:induction false} BinomialRange(n: nat, k: nat)
    ensures Binomial(n, k) > 0 <==> k <= n
    decreases n
  {
    if k > 0 && n > 0 {
      BinomialRange(n - 1, k - 1);
      BinomialRange(n - 1, k);
    }
  }

  lemma {:induction false} BinomialDiagonal(n: nat)
    ensures Binomial(n, n) == 1
    decreases n
  {
    if n > 0 {
      BinomialDiagonal(n - 1);
      BinomialRange(n - 1, n);
    }
  }

  lemma {:induction false} BinomialFactorial(n: nat, k: nat)
    requires k <= n
    ensures Binomial(n, k) * Factorial(k) * Factorial(n - k) == Factorial(n)
    decreases n
  {
    if k == 0 {
    } else if k == n {
      BinomialDiagonal(n);
    } else {
      BinomialFactorial(n - 1, k - 1);
      BinomialFactorial(n - 1, k);
      PascalTimes(Binomial(n - 1, k - 1), Binomial(n - 1, k), Factorial(k - 1), Factorial(n - 1 - k), Factorial(n - 1),
                  n, k);
    }
  }

  lemma PascalTimes(a: nat, b: nat, f: nat, g: nat, h: nat, n: nat, k: nat)
    requires 0 < k < n
    requires a * f * ((n - k) * g) == h && b * (k * f) * g == h
    ensures (a + b) * (k * f) * ((n - k) * g) == n * h
  {
    assert a * (k * f) * ((n - k) * g) == k * (a * f * ((n - k) * g));
    assert b * (k * f) * ((n - k) * g) == (n - k) * (b * (k * f) * g);
    assert k * h + (n - k) * h == n * h;
    assert (a + b) * (k * f) * ((n - k) * g) == a * (k * f) * ((n - k) * g) + b * (k * f) * ((n - k) * g);
  }

  /** One more element chosen: (k + 1) C(n, k + 1) = (n - k) C(n, k). */
  lemma {:induction false} BinomialNext(n: nat, k: nat)
    requires k <= n
    ensures (k + 1) * Binomial(n, k + 1) == (n - k) * Binomial(n, k)
    decreases n
  {
    if k == n {
      BinomialRange(n, n + 1);
    } else if k == 0 {
      if n > 1 { BinomialNext(n - 1, 0); }
    } else {
      BinomialNext(n - 1, k - 1);
      BinomialNext(n - 1, k);
      NextTimes(Binomial(n - 1, k - 1), Binomial(n - 1, k), Binomial(n - 1, k + 1), n, k);
    }
  }

  lemma NextTimes(a: nat, b: nat, c: nat, n: nat, k: nat)
    requires k * b == (n - k) * a && (k + 1) * c == (n - 1 - k) * b
    ensures (k + 1) * (b + c) == (n - k) * (a + b)
  {
    assert (k + 1) * (b + c) == k * b + b + (k + 1) * c;
    assert (n - k) * (a + b) == (n - k) * a + (n - k) * b;
    assert (n - 1 - k) * b == (n - k) * b - b;
  }

  /** Choosing `s` and then `k` of the rest is choosing `k` and then `s` of the rest. */
  lemma ChooseTwice(n: nat, s: nat, k: nat)
    requires s + k <= n
    ensures Binomial(n, s) * Binomial(n - s, k) == Binomial(n, k) * Binomial(n - k, s)
  {
    BinomialFactorial(n, s);
    BinomialFactorial(n - s, k);
    BinomialFactorial(n, k);
    BinomialFactorial(n - k, s);
    CancelFactorials(Binomial(n, s), Binomial(n - s, k), Binomial(n, k), Binomial(n - k, s),
                     Factorial(s), Factorial(k), Factorial(n - s - k), Factorial(n - s), Factorial(n - k),
                     Factorial(n));
  }

  lemma CancelFactorials(a: nat, b: nat, c: nat, d: nat, fs: nat, fk: nat, fr: nat, fns: nat, fnk: nat, fn: nat)
    requires fs > 0 && fk > 0 && fr > 0
    requires a * fs * fns == fn && b * fk * fr == fns && c * fk * fnk == fn && d * fs * fr == fnk
    ensures a * b == c * d
  {
    var f := fs * fk * fr;
    assert a * fs * (b * fk * fr) == (a * b) * f;
    assert c * fk * (d * fs * fr) == (c * d) * f;
    PositiveProduct(fs, fk, fr);
    CancelFactor(a * b, c * d, f);
  }

  lemma PositiveProduct(x: nat, y: nat, z: nat)
    requires x > 0 && y > 0 && z > 0
    ensures x * y * z > 0
  {
  }

  lemma CancelFactor(x: int, y: int, f: int)
    requires f > 0 && x * f == y * f
    ensures x == y
  {
    assert (x - y) * f == 0;
  }

  // ----- Subsets -----

  /** All subsets of `a` with `k` elements. */
  ghost function KSubsets(a: set<nat>, k: nat): set<set<nat>> {
    set b | b <= a && |b| == k
  }

  ghost function WithElement(bs: set<set<nat>>, x: nat): set<set<nat>> {
    set b | b in bs :: b + {x}
  }

  lemma {:induction false} WithElementSize(bs: set<set<nat>>, x: nat)
    requires forall b :: b in bs ==> x !in b
    ensures |WithElement(bs, x)| == |bs|
    decreases |bs|
  {
    if bs != {} {
      var b :| b in bs;
      var rest := bs - {b};
      WithElementSize(rest, x);
      assert WithElement(bs, x) == WithElement(rest, x) + {b + {x}};
      forall c | c in rest
        ensures c + {x} != b + {x}
      {
        assert (c + {x}) - {x} == c && (b + {x}) - {x} == b;
      }
    }
  }

  /** The binomial coefficient counts subsets. */
  lemma {:induction false} KSubsetsCount(a: set<nat>, k: nat)
    ensures |KSubsets(a, k)| == Binomial(|a|, k)
    decreases |a|
  {
    if k == 0 || a == {} {
      KSubsetsTrivial(a, k);
    } else {
      var x :| x in a;
      KSubsetsCount(a - {x}, k);
      KSubsetsCount(a - {x}, k - 1);
      KSubsetsRecur(a, x, k);
    }
  }

  lemma KSubsetsTrivial(a: set<nat>, k: nat)
    requires k == 0 || a == {}
    ensures |KSubsets(a, k)| == if k == 0 then 1 else 0
  {
    if k == 0 {
      assert KSubsets(a, k) == {{}};
    } else {
      assert KSubsets(a, k) == {};
    }
  }

  lemma KSubsetsRecur(a: set<nat>, x: nat, k: nat)
    requires x in a && k > 0
    ensures |KSubsets(a, k)| == |KSubsets(a - {x}, k)| + |KSubsets(a - {x}, k - 1)|
    ensures |a - {x}| == |a| - 1
  {
    KSubsetsSplit(a, x, k);
    WithElementSize(KSubsets(a - {x}, k - 1), x);
    DisjointSizes(KSubsets(a - {x}, k), WithElement(KSubsets(a - {x}, k - 1), x));
  }

  lemma DisjointSizes<T>(a: set<T>, b: set<T>)
    requires a !! b
    ensures |a + b| == |a| + |b|
  {
  }

  lemma KSubsetsSplit(a: set<nat>, x: nat, k: nat)
    requires x in a && k > 0
    ensures KSubsets(a, k) == KSubsets(a - {x}, k) + WithElement(KSubsets(a - {x}, k - 1), x)
    ensures KSubsets(a - {x}, k) !! WithElement(KSubsets(a - {x}, k - 1), x)
  {
    forall b | b in KSubsets(a, k)
      ensures b in KSubsets(a - {x}, k) + WithElement(KSubsets(a - {x}, k - 1), x)
    {
      if x in b {
        assert b - {x} in KSubsets(a - {x}, k - 1);
        assert b == (b - {x}) + {x};
      }
    }
  }
}
