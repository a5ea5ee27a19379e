/** The number-theoretic transform as evaluation at the powers of omega, and its inverse as evaluation at the
    inverse powers scaled by 1/n. The library that computes them is not part of this model; this is what it computes. */
module Transform {
  import opened Numbers
  import opened Goldilocks
  import opened Polynomial

  function Ntt(c: seq<Element>): (v: seq<Element>)
    requires c != []
    ensures |v| == |c|
  {
    seq(|c|, s requires 0 <= s < |c| => Reduce(Eval(c, Pow(Omega(|c|), s))))
  }

  function Intt(v: seq<Element>): (c: seq<Element>)
    requires v != []
    ensures |c| == |v|
  {
    seq(|v|, j requires 0 <= j < |v| => Mul(Inv(Reduce(|v|)), Eval(v, Pow(Omega(|v|), |v| - j))))
  }

  // ---------- geometric sums ----------

  /** 1 + z + ... + z^(n - 1). */
  function Geometric(z: int, n: nat): int {
    if n == 0 then 0 else Geometric(z, n - 1) + Pow(z, n - 1)
  }

  lemma {:induction false} GeometricLaw(z: int, n: nat)
    ensures (z - 1) * Geometric(z, n) == Pow(z, n) - 1
  {
    if n != 0 {
      GeometricLaw(z, n - 1);
      var p := Pow(z, n - 1);
      assert (z - 1) * (Geometric(z, n - 1) + p) == (z - 1) * Geometric(z, n - 1) + (z - 1) * p;
      assert (z - 1) * p == z * p - p;
    }
  }

  lemma {:induction false} GeometricOfOne(z: int, n: nat)
    requires Cong(z, 1, P)
    ensures Cong(Geometric(z, n), n, P)
  {
    if n == 0 {
      CongRefl(0, P);
    } else {
      GeometricOfOne(z, n - 1);
      CongPow(z, 1, n - 1, P);
      PowOne(n - 1);
      CongAdd(Geometric(z, n - 1), n - 1, Pow(z, n - 1), 1, P);
    }
  }

  lemma GeometricOfRoot(z: int, n: nat)
    requires Cong(Pow(z, n), 1, P) && !Cong(z, 1, P)
    ensures Cong(Geometric(z, n), 0, P)
  {
    GeometricLaw(z, n);
    var g := Geometric(z, n);
    assert Cong((z - 1) * g, 0, P);
    PIsPrime();
    ZeroProductGeneral(P, z - 1, g);
  }

  // ---------- the double sum ----------

  /** The sum over i < n of c(w^i) y^i. */
  function SampleSum(w: int, c: seq<int>, y: int, n: nat): int {
    if n == 0 then 0 else SampleSum(w, c, y, n - 1) + Eval(c, Pow(w, n - 1)) * Pow(y, n - 1)
  }

  /** The same sum, exchanged: each coefficient times its geometric sum. */
  function CoefficientSum(w: int, c: seq<int>, y: int, n: nat): int {
    if c == [] then 0 else c[0] * Geometric(y, n) + CoefficientSum(w, c[1..], w * y, n)
  }

  lemma {:induction false} PowOfProduct(a: int, b: int, e: nat)
    ensures Pow(a * b, e) == Pow(a, e) * Pow(b, e)
  {
    if e != 0 {
      PowOfProduct(a, b, e - 1);
      ProductOfPairs(a, b, Pow(a, e - 1), Pow(b, e - 1));
    }
  }

  lemma ProductOfPairs(a: int, b: int, p: int, q: int)
    ensures (a * b) * (p * q) == (a * p) * (b * q)
  {
    assert (a * b) * (p * q) == a * (b * (p * q)) == a * (p * (b * q));
  }

  lemma {:induction false} SplitSampleSum(w: int, c: seq<int>, y: int, n: nat)
    requires c != []
    ensures SampleSum(w, c, y, n) == c[0] * Geometric(y, n) + SampleSum(w, c[1..], w * y, n)
  {
    if n != 0 {
      SplitSampleSum(w, c, y, n - 1);
      PowOfProduct(w, y, n - 1);
      SplitTerm(c[0], Pow(w, n - 1), Eval(c[1..], Pow(w, n - 1)), Pow(y, n - 1), Geometric(y, n - 1));
    }
  }

  lemma SplitTerm(a: int, u: int, e: int, v: int, g: int)
    ensures (a + u * e) * v == a * v + e * (u * v)
    ensures a * (g + v) == a * g + a * v
  {
    assert (a + u * e) * v == a * v + (u * e) * v;
    assert (u * e) * v == e * (u * v);
  }

  lemma {:induction false} ExchangeSums(w: int, c: seq<int>, y: int, n: nat)
    ensures SampleSum(w, c, y, n) == CoefficientSum(w, c, y, n)
  {
    if c == [] {
      SampleSumOfNothing(w, y, n);
    } else {
      SplitSampleSum(w, c, y, n);
      ExchangeSums(w, c[1..], w * y, n);
    }
  }

  lemma {:induction false} SampleSumOfNothing(w: int, y: int, n: nat)
    ensures SampleSum(w, [], y, n) == 0
  {
    if n != 0 {
      SampleSumOfNothing(w, y, n - 1);
    }
  }

  lemma {:induction false} EvalSnoc(c: seq<int>, a: int, x: int)
    ensures Eval(c + [a], x) == Eval(c, x) + a * Pow(x, |c|)
  {
    if c == [] {
      assert c + [a] == [a];
      assert Eval([a], x) == a + x * Eval([], x);
    } else {
      EvalSnoc(c[1..], a, x);
      assert (c + [a])[1..] == c[1..] + [a];
      assert x * (Eval(c[1..], x) + a * Pow(x, |c| - 1)) == x * Eval(c[1..], x) + a * (x * Pow(x, |c| - 1));
    }
  }

  /** Evaluating the transform of c at y is the sample sum of c. */
  lemma {:induction false} EvalOfNtt(c: seq<Element>, y: int, n: nat)
    requires n <= |c| && c != []
    ensures Cong(Eval(Ntt(c)[..n], y), SampleSum(Omega(|c|), c, y, n), P)
  {
    var v, w := Ntt(c), Omega(|c|);
    if n == 0 {
      assert v[..0] == [];
      CongRefl(0, P);
    } else {
      EvalOfNtt(c, y, n - 1);
      assert v[..n] == v[..n - 1] + [v[n - 1]];
      EvalSnoc(v[..n - 1], v[n - 1], y);
      var e, p := Eval(c, Pow(w, n - 1)), Pow(y, n - 1);
      CongMod(e, P);
      CongRefl(p, P);
      CongMul(v[n - 1], e, p, p, P);
      CongAdd(Eval(v[..n - 1], y), SampleSum(w, c, y, n - 1), v[n - 1] * p, e * p, P);
    }
  }

  // ---------- orthogonality ----------

  /** omega^(m + n - j) summed over n powers is n when m == j and vanishes otherwise. */
  lemma Orthogonality(n: nat, m: nat, j: nat, y: int)
    requires IsTransformSize(n) && m < n && j < n && Cong(y, Pow(Omega(n), m + n - j), P)
    ensures Cong(Geometric(y, n), if m == j then n else 0, P)
  {
    var w := Omega(n);
    OmegaFullPower(n);
    if m == j {
      CongTrans(y, Pow(w, n), 1, P);
      GeometricOfOne(y, n);
    } else {
      RootPower(n, m + n - j, y);
      if Cong(y, 1, P) {
        CongSym(y, Pow(w, m + n - j), P);
        CongTrans(Pow(w, m + n - j), y, 1, P);
        CongSym(Pow(w, n), 1, P);
        CongTrans(Pow(w, m + n - j), 1, Pow(w, n), P);
        CongSym(Pow(w, m + n - j), Pow(w, n), P);
        PowerNotFull(n, m + n - j);
      }
      GeometricOfRoot(y, n);
    }
  }

  lemma OmegaFullPower(n: nat)
    requires IsTransformSize(n)
    ensures n > 0 && Cong(Pow(Omega(n), n), 1, P)
  {
    var m: nat :| m <= TWO_ADICITY && n == Pow2(m);
    var w := Omega(n);
    SizeDivides(m);
    var c := (P - 1) / n;
    CongMod(Pow(7, c), P);
    CongPow(w, Pow(7, c), n, P);
    PowMul(7, c, n);
    PIsPrime();
    CongCanonicalZero(7, P);
    Fermat(7, P);
    CongTrans(Pow(w, n), Pow(7, P - 1), 1, P);
  }

  lemma RootPower(n: nat, e: nat, y: int)
    requires IsTransformSize(n) && Cong(y, Pow(Omega(n), e), P)
    ensures Cong(Pow(y, n), 1, P)
  {
    var w := Omega(n);
    OmegaFullPower(n);
    CongPow(y, Pow(w, e), n, P);
    PowMul(w, e, n);
    PowMul(w, n, e);
    assert e * n == n * e;
    CongPow(Pow(w, n), 1, e, P);
    PowOne(e);
    CongTrans(Pow(y, n), Pow(Pow(w, n), e), 1, P);
  }

  lemma PowerNotFull(n: nat, e: nat)
    requires IsTransformSize(n) && 0 < e < 2 * n && e != n
    ensures !Cong(Pow(Omega(n), e), Pow(Omega(n), n), P)
  {
    var m: nat :| m <= TWO_ADICITY && n == Pow2(m);
    var w := Omega(n);
    var lo, hi := if e < n then e else n, if e < n then n else e;
    if Cong(Pow(w, e), Pow(w, n), P) {
      CongSym(Pow(w, e), Pow(w, n), P);
      PowAdd(w, lo, hi - lo);
      OmegaNonZero(n);
      PowNonZero(w, lo);
      UnitCancels(Pow(w, lo), Pow(w, hi - lo));
      OmegaPowerNotOne(m, hi - lo);
    }
  }

  /** The coefficients m.. contribute n * c[j] if they include coefficient j, and nothing otherwise. */
  lemma {:induction false} CoefficientExtraction(c: seq<Element>, m: nat, j: nat, y: int)
    requires IsTransformSize(|c|) && m <= |c| && j < |c| && Cong(y, Pow(Omega(|c|), m + |c| - j), P)
    ensures Cong(CoefficientSum(Omega(|c|), c[m..], y, |c|), if m <= j then c[j] * |c| else 0, P)
    decreases |c| - m
  {
    var n, w := |c|, Omega(|c|);
    if m == n {
      CongRefl(0, P);
    } else {
      CongRefl(w, P);
      CongMul(w, w, y, Pow(w, m + n - j), P);
      CoefficientExtraction(c, m + 1, j, w * y);
      assert c[m..][1..] == c[m + 1..];
      Orthogonality(n, m, j, y);
      CongRefl(c[m], P);
      CongMul(c[m], c[m], Geometric(y, n), if m == j then n else 0, P);
      CongAdd(c[m] * Geometric(y, n), c[m] * (if m == j then n else 0),
              CoefficientSum(w, c[m + 1..], w * y, n), if m + 1 <= j then c[j] * n else 0, P);
    }
  }

  /** The inverse transform undoes the transform. */
  lemma InttNtt(c: seq<Element>)
    requires IsTransformSize(|c|)
    ensures c != [] && Intt(Ntt(c)) == c
  {
    OmegaFullPower(|c|);
    forall j | 0 <= j < |c|
      ensures Intt(Ntt(c))[j] == c[j]
    {
      InttNttAt(c, j);
    }
  }

  lemma InttNttAt(c: seq<Element>, j: nat)
    requires IsTransformSize(|c|) && j < |c|
    ensures Intt(Ntt(c))[j] == c[j]
  {
    var n, v, w := |c|, Ntt(c), Omega(|c|);
    var y := Pow(w, n - j);
    EvalOfNtt(c, y, n);
    assert v[..n] == v && c[0..] == c;
    ExchangeSums(w, c, y, n);
    CongRefl(y, P);
    CoefficientExtraction(c, 0, j, y);
    CongTrans(Eval(v, y), SampleSum(w, c, y, n), c[j] * n, P);
    SizeIsUnit(n);
    DivideBySize(n, Eval(v, y), c[j]);
  }

  lemma SizeIsUnit(n: nat)
    requires IsTransformSize(n)
    ensures 0 < n < P
  {
    var m: nat :| m <= TWO_ADICITY && n == Pow2(m);
    Pow2Literal();
    PowAdd(2, m, 32 - m);
    FactorBound(Pow2(m), Pow2(32 - m));
  }

  lemma FactorBound(a: int, b: int)
    requires a > 0 && b > 0
    ensures a <= a * b
  {
    assert a * (b - 1) >= 0;
    assert a * (b - 1) == a * b - a;
  }

  lemma DivideBySize(n: nat, e: int, x: Element)
    requires 0 < n < P && Cong(e, x * n, P)
    ensures Mul(Inv(Reduce(n)), e) == x
  {
    ReduceFixed(n);
    var u: int := Inv(n);
    InvIsInverse(n);
    CongRefl(u, P);
    CongMul(u, u, e, x * n, P);
    CongRefl(x, P);
    CongMul(x, x, n * u, 1, P);
    assert u * (x * n) == x * (n * u);
    CongTrans(u * e, x * (n * u), x, P);
    CongMod(u * e, P);
    CongTrans(Mul(u, e), u * e, x, P);
    CongCanonical(Mul(u, e), x, P);
  }
}
