/** Lagrange interpolation over the Goldilocks field (src/erasure.rs:176-214): the coefficient-level algorithm,
    the polynomial it computes, and the proof that it recovers every polynomial from its values. */
module Interpolation {
  import opened Numbers
  import opened Goldilocks
  import opened Polynomial

  /** The product of x - points[j] over j < n, j != i. */
  function RootProduct(points: seq<int>, i: nat, x: int, n: nat): int
    requires n <= |points|
  {
    if n == 0 then 1
    else if n - 1 == i then RootProduct(points, i, x, n - 1)
    else RootProduct(points, i, x, n - 1) * (x - points[n - 1])
  }

  /** Number of linear factors multiplied in after the first n points. */
  function Degree(i: nat, n: nat): nat {
    if n <= i then n else n - 1
  }

  lemma MulLinearDegree(b: seq<int>, a: int, deg: nat)
    requires forall d :: deg < d < |b| ==> b[d] == 0
    ensures forall d :: deg + 1 < d < |b| ==> MulLinear(b, a, 0)[d] == 0
  {
    forall d | deg + 1 < d < |b|
      ensures MulLinear(b, a, 0)[d] == 0
    {
      assert b[d] == 0 && b[d - 1] == 0;
    }
  }

  /** The coefficients of the numerator polynomial after the first n points. */
  function Basis(points: seq<int>, i: nat, n: nat): (b: seq<int>)
    requires i < |points| && n <= |points|
    ensures |b| == |points|
    ensures forall d :: Degree(i, n) < d < |b| ==> b[d] == 0
  {
    if n == 0 then [1] + Zeros(|points| - 1)
    else if n - 1 == i then Basis(points, i, n - 1)
    else
      MulLinearDegree(Basis(points, i, n - 1), points[n - 1], Degree(i, n - 1));
      MulLinear(Basis(points, i, n - 1), points[n - 1], 0)
  }

  lemma EvalConstant(c: int, x: int)
    ensures Eval([c], x) == c
  {
    assert Eval([c], x) == c + x * Eval([], x);
  }

  lemma {:induction false} EvalBasis(points: seq<int>, i: nat, n: nat, x: int)
    requires i < |points| && n <= |points|
    ensures Eval(Basis(points, i, n), x) == RootProduct(points, i, x, n)
  {
    hide Eval, MulLinear;
    if n == 0 {
      EvalPadded([1], |points| - 1, x);
      EvalConstant(1, x);
    } else {
      EvalBasis(points, i, n - 1, x);
      if n - 1 != i {
        EvalMulLinear(Basis(points, i, n - 1), points[n - 1], 0, x);
      }
    }
  }

  function Scale(points: seq<int>, values: seq<Element>, i: nat): Element
    requires i < |points| == |values|
  {
    Mul(values[i], Inv(Reduce(RootProduct(points, i, points[i], |points|))))
  }

  /** The sum of the first n scaled basis polynomials. */
  function Partial(points: seq<int>, values: seq<Element>, n: nat): (c: seq<int>)
    requires n <= |points| == |values|
    ensures |c| == |points|
  {
    if n == 0 then Zeros(|points|)
    else AddScaled(Partial(points, values, n - 1), Scale(points, values, n - 1), Basis(points, n - 1, |points|))
  }

  function Interpolate(points: seq<int>, values: seq<Element>): (c: seq<Element>)
    requires |points| == |values|
    ensures |c| == |points|
  {
    seq(|points|, d requires 0 <= d < |points| => Reduce(Partial(points, values, |points|)[d]))
  }

  // ---------- the interpolating polynomial passes through every point ----------

  lemma {:induction false} RootProductAtOtherPoint(points: seq<int>, i: nat, m: nat, n: nat)
    requires m < n <= |points| && m != i
    ensures RootProduct(points, i, points[m], n) == 0
  {
    if m == n - 1 {
      assert points[m] - points[n - 1] == 0;
    } else {
      RootProductAtOtherPoint(points, i, m, n - 1);
    }
  }

  lemma {:induction false} DenominatorIsUnit(points: seq<int>, i: nat, n: nat)
    requires i < |points| && n <= |points| && DistinctPoints(points)
    ensures !Cong(RootProduct(points, i, points[i], n), 0, P)
  {
    if n == 0 {
      CongCanonicalZero(1, P);
    } else {
      DenominatorIsUnit(points, i, n - 1);
      if n - 1 != i && Cong(RootProduct(points, i, points[i], n), 0, P) {
        PIsPrime();
        ZeroProductGeneral(P, RootProduct(points, i, points[i], n - 1), points[i] - points[n - 1]);
        assert Cong(points[i], points[n - 1], P);
        CongSym(points[i], points[n - 1], P);
      }
    }
  }

  lemma ScaleAtOwnPoint(points: seq<int>, values: seq<Element>, i: nat)
    requires i < |points| == |values| && DistinctPoints(points)
    ensures Cong(Scale(points, values, i) * RootProduct(points, i, points[i], |points|), values[i], P)
  {
    var d := RootProduct(points, i, points[i], |points|);
    DenominatorIsUnit(points, i, |points|);
    CongSameMod(d, 0, P);
    ScaledUnit(values[i], d);
  }

  lemma ScaledUnit(v: int, d: int)
    requires Reduce(d) != 0
    ensures Cong(Mul(v, Inv(Reduce(d))) * d, v, P)
  {
    var e: int := Reduce(d);
    var u: int := Inv(e);
    InvIsInverse(e);
    CongMod(d, P);
    CongMod(v * u, P);
    CongMul(Mul(v, u), v * u, d, e, P);
    assert (v * u) * e == v * (e * u);
    CongRefl(v, P);
    CongMul(v, v, e * u, 1, P);
    CongTrans(Mul(v, u) * d, v * (e * u), v, P);
  }

  lemma {:induction false} PartialValue(points: seq<int>, values: seq<Element>, n: nat, m: nat)
    requires n <= |points| == |values| && m < |points| && DistinctPoints(points)
    ensures Cong(Eval(Partial(points, values, n), points[m]), if m < n then values[m] else 0, P)
  {
    if n == 0 {
      EvalZeros(|points|, points[m]);
      CongRefl(0, P);
    } else {
      PartialValue(points, values, n - 1, m);
      EvalAddScaled(Partial(points, values, n - 1), Scale(points, values, n - 1), Basis(points, n - 1, |points|), points[m]);
      ScaledBasisValue(points, values, n - 1, m);
      CongAdd(Eval(Partial(points, values, n - 1), points[m]), if m < n - 1 then values[m] else 0,
              Scale(points, values, n - 1) * Eval(Basis(points, n - 1, |points|), points[m]),
              if m == n - 1 then values[m] else 0, P);
    }
  }

  /** The i-th scaled basis polynomial is values[i] at its own point and 0 at every other one. */
  lemma ScaledBasisValue(points: seq<int>, values: seq<Element>, i: nat, m: nat)
    requires i < |points| == |values| && m < |points| && DistinctPoints(points)
    ensures Cong(Scale(points, values, i) * Eval(Basis(points, i, |points|), points[m]), if m == i then values[m] else 0, P)
  {
    EvalBasis(points, i, |points|, points[m]);
    if m == i {
      ScaleAtOwnPoint(points, values, m);
    } else {
      RootProductAtOtherPoint(points, i, m, |points|);
      CongRefl(0, P);
    }
  }

  lemma InterpolateHits(points: seq<int>, values: seq<Element>, m: nat)
    requires m < |points| == |values| && DistinctPoints(points)
    ensures Cong(Eval(Interpolate(points, values), points[m]), values[m], P)
  {
    var c, p := Interpolate(points, values), Partial(points, values, |points|);
    forall d | 0 <= d < |c|
      ensures Cong(c[d], p[d], P)
    {
      CongMod(p[d], P);
    }
    CongRefl(points[m], P);
    EvalCongruent(c, p, points[m], points[m]);
    PartialValue(points, values, |points|, m);
    CongTrans(Eval(c, points[m]), Eval(p, points[m]), values[m], P);
  }

  /** Interpolating the values of a polynomial at as many distinct points as it has coefficients returns it. */
  lemma InterpolateRecovers(c: seq<Element>, points: seq<int>, values: seq<Element>)
    requires |c| == |points| == |values| && DistinctPoints(points)
    requires forall m :: 0 <= m < |points| ==> Cong(values[m], Eval(c, points[m]), P)
    ensures Interpolate(points, values) == c
  {
    var d := Interpolate(points, values);
    forall m | 0 <= m < |points|
      ensures Cong(Eval(d, points[m]), Eval(c, points[m]), P)
    {
      InterpolateHits(points, values, m);
      CongTrans(Eval(d, points[m]), values[m], Eval(c, points[m]), P);
    }
    AgreeingPolynomials(d, c, points);
  }

  // ---------- the algorithm ----------

  ghost predicate Reduces(a: seq<Element>, b: seq<int>) {
    |a| == |b| && forall d :: 0 <= d < |a| ==> a[d] == Reduce(b[d])
  }

  /** One coefficient of the product with X - x: b[d - 1] + b[d] * (-x) in the field. */
  lemma LinearCoefficient(lo: int, hi: int, x: int)
    ensures Add(Reduce(lo), Mul(Reduce(hi), Neg(x))) == Reduce(lo - x * hi)
    ensures Mul(Reduce(hi), Neg(x)) == Reduce(0 - x * hi)
  {
    MulReduce(hi, Neg(x));
    MulReduce(0 - x, hi);
    assert (0 - x) * hi == 0 - x * hi;
    AddReduce(lo, 0 - x * hi);
  }

  /** The in-place product of the first deg + 2 coefficients with X - x, from the top coefficient down. */
  method MultiplyByLinear(basis: array<Element>, deg: nat, x: Element, ghost b: seq<int>)
    requires deg + 1 < basis.Length && Reduces(basis[..], b)
    requires forall d :: deg < d < |b| ==> b[d] == 0
    modifies basis
    ensures Reduces(basis[..], MulLinear(b, x, 0))
  {
    var negX := Neg(x);
    var d := deg + 1;
    ghost var r := MulLinear(b, x, 0);
    assert r[0] == 0 - x * b[0];
    hide Reduce, Add, Mul, Neg, MulLinear;
    MulLinearDegree(b, x, deg);
    while d >= 1
      invariant 0 <= d <= deg + 1
      invariant forall j :: 0 <= j <= d ==> basis[j] == Reduce(b[j])
      invariant forall j :: d < j < basis.Length ==> basis[j] == Reduce(r[j])
    {
      LinearCoefficient(b[d - 1], b[d], x);
      basis[d] := Add(basis[d - 1], Mul(basis[d], negX));
      d := d - 1;
    }
    LinearCoefficient(0, b[0], x);
    basis[0] := Mul(basis[0], negX);
    assert |r| == |b| == basis.Length;
  }

  /** The product of the differences between points[i] and every other point. */
  method Denominator(points: seq<Element>, i: nat) returns (denom: Element)
    requires i < |points|
    ensures denom == Reduce(RootProduct(points, i, points[i], |points|))
  {
    hide Reduce, RootProduct, Sub, Mul;
    denom := 1;
    var j := 0;
    DenominatorStart(points, i);
    while j < |points|
      invariant 0 <= j <= |points|
      invariant denom == Reduce(RootProduct(points, i, points[i], j))
    {
      DenominatorStep(points, i, j);
      if j != i {
        denom := Mul(denom, Sub(points[i], points[j]));
      }
      j := j + 1;
    }
  }

  lemma DenominatorStart(points: seq<Element>, i: nat)
    requires i < |points|
    ensures Reduce(RootProduct(points, i, points[i], 0)) == 1
  {
    ReduceFixed(1);
  }

  lemma DenominatorStep(points: seq<Element>, i: nat, j: nat)
    requires i < |points| && j < |points|
    ensures Reduce(RootProduct(points, i, points[i], j + 1)) ==
      var denom := Reduce(RootProduct(points, i, points[i], j));
      if j == i then denom else Mul(denom, Sub(points[i], points[j]))
  {
    hide Reduce, Mul;
    ReducedProduct(RootProduct(points, i, points[i], j), points[i] as int - points[j] as int);
  }

  lemma ReducedProduct(q: int, f: int)
    ensures Mul(Reduce(q), Reduce(f)) == Reduce(q * f)
  {
    hide Reduce;
    MulReduce(q, Reduce(f));
    MulReduce(f, q);
  }

  lemma BasisStart(points: seq<Element>, i: nat, basis: seq<Element>)
    requires i < |points| == |basis| && basis[0] == 1 && forall d :: 0 < d < |basis| ==> basis[d] == 0
    ensures Degree(i, 0) == 0 && Reduces(basis, Basis(points, i, 0))
  {
    ReduceFixed(0);
    ReduceFixed(1);
  }

  lemma BasisStep(points: seq<Element>, i: nat, j: nat)
    requires i < |points| && j < |points|
    ensures j == i ==> Degree(i, j + 1) == Degree(i, j) && Basis(points, i, j + 1) == Basis(points, i, j)
    ensures j != i ==> Degree(i, j + 1) == Degree(i, j) + 1 && Degree(i, j) + 1 < |points|
    ensures j != i ==> Basis(points, i, j + 1) == MulLinear(Basis(points, i, j), points[j], 0)
  {
  }

  /** The coefficients of the numerator polynomial, built up one linear factor at a time. */
  method BuildBasis(points: seq<Element>, i: nat) returns (basis: array<Element>)
    requires i < |points|
    ensures fresh(basis) && Reduces(basis[..], Basis(points, i, |points|))
  {
    hide Reduces, Basis, MulLinear, Degree;
    basis := new Element[|points|](_ => 0);
    basis[0] := 1;
    BasisStart(points, i, basis[..]);
    var deg, j := 0, 0;
    while j < |points|
      invariant 0 <= j <= |points| && deg == Degree(i, j)
      invariant Reduces(basis[..], Basis(points, i, j))
      invariant fresh(basis)
    {
      BasisStep(points, i, j);
      if j != i {
        MultiplyByLinear(basis, deg, points[j], Basis(points, i, j));
        deg := deg + 1;
      }
      j := j + 1;
    }
  }

  method AccumulateScaled(result: array<Element>, scale: Element, basis: array<Element>, ghost r: seq<int>, ghost b: seq<int>)
    requires result != basis && Reduces(result[..], r) && Reduces(basis[..], b) && |r| == |b|
    modifies result
    ensures Reduces(result[..], AddScaled(r, scale, b))
  {
    var d := 0;
    while d < result.Length
      invariant 0 <= d <= result.Length
      invariant basis[..] == old(basis[..])
      invariant forall j :: 0 <= j < d ==> result[j] == Reduce(r[j] + scale * b[j])
      invariant forall j :: d <= j < result.Length ==> result[j] == Reduce(r[j])
    {
      assert basis[d] == Reduce(b[d]);
      MulReduce(b[d], scale);
      AddReduce(r[d], scale * b[d]);
      result[d] := Add(result[d], Mul(scale, basis[d]));
      d := d + 1;
    }
  }

  method LagrangeInterpolate(points: seq<Element>, values: seq<Element>) returns (coefficients: seq<Element>)
    requires |points| == |values|
    ensures coefficients == Interpolate(points, values)
  {
    hide Reduce, Mul, Basis, Inv, RootProduct;
    var k := |points|;
    var result := new Element[k](_ => 0);
    ReduceFixed(0);
    var i := 0;
    while i < k
      invariant 0 <= i <= k
      invariant Reduces(result[..], Partial(points, values, i))
    {
      var denom := Denominator(points, i);
      var scale := Mul(values[i], Inv(denom));
      var basis := BuildBasis(points, i);
      AccumulateScaled(result, scale, basis, Partial(points, values, i), Basis(points, i, k));
      i := i + 1;
    }
    coefficients := result[..];
  }
}
