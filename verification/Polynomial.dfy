/** Polynomials as coefficient sequences over the integers, read modulo P. */
module Polynomial {
  import opened Numbers
  import opened Goldilocks

  function Eval(c: seq<int>, x: int): int {
    if c == [] then 0 else c[0] + x * Eval(c[1..], x)
  }

  ghost predicate CongAll(c: seq<int>, d: seq<int>) {
    |c| == |d| && forall i :: 0 <= i < |c| ==> Cong(c[i], d[i], P)
  }

  lemma {:induction false} EvalCongruent(c: seq<int>, d: seq<int>, x: int, y: int)
    requires CongAll(c, d) && Cong(x, y, P)
    ensures Cong(Eval(c, x), Eval(d, y), P)
  {
    if c == [] {
      CongRefl(0, P);
    } else {
      EvalCongruent(c[1..], d[1..], x, y);
      CongMul(x, y, Eval(c[1..], x), Eval(d[1..], y), P);
      CongAdd(c[0], d[0], x * Eval(c[1..], x), y * Eval(d[1..], y), P);
    }
  }

  function AddScaled(r: seq<int>, s: int, b: seq<int>): (t: seq<int>)
    requires |r| == |b|
    ensures |t| == |r| && forall d :: 0 <= d < |r| ==> t[d] == r[d] + s * b[d]
  {
    seq(|r|, d requires 0 <= d < |r| => r[d] + s * b[d])
  }

  lemma {:induction false} EvalAddScaled(r: seq<int>, s: int, b: seq<int>, x: int)
    requires |r| == |b|
    ensures Eval(AddScaled(r, s, b), x) == Eval(r, x) + s * Eval(b, x)
  {
    if r == [] {
    } else {
      EvalAddScaled(r[1..], s, b[1..], x);
      ScaledTail(r, s, b);
      ScaledStep(r[0], s, b[0], x, Eval(r[1..], x), Eval(b[1..], x));
      hide AddScaled;
    }
  }

  lemma ScaledTail(r: seq<int>, s: int, b: seq<int>)
    requires |r| == |b| > 0
    ensures AddScaled(r, s, b)[0] == r[0] + s * b[0] && AddScaled(r, s, b)[1..] == AddScaled(r[1..], s, b[1..])
  {
  }

  lemma ScaledStep(r: int, s: int, b: int, x: int, u: int, v: int)
    ensures (r + s * b) + x * (u + s * v) == (r + x * u) + s * (b + x * v)
  {
    assert x * (u + s * v) == x * u + s * (x * v);
    assert s * (b + x * v) == s * b + s * (x * v);
  }

  function Zeros(n: nat): (z: seq<int>)
    ensures |z| == n && forall i :: 0 <= i < n ==> z[i] == 0
  {
    seq(n, _ => 0)
  }

  lemma {:induction false} EvalZeros(n: nat, x: int)
    ensures Eval(Zeros(n), x) == 0
  {
    if n != 0 {
      EvalZeros(n - 1, x);
      assert Zeros(n)[1..] == Zeros(n - 1);
    }
  }

  lemma {:induction false} EvalPadded(c: seq<int>, n: nat, x: int)
    ensures Eval(c + Zeros(n), x) == Eval(c, x)
  {
    if c == [] {
      assert c + Zeros(n) == Zeros(n);
      EvalZeros(n, x);
    } else {
      EvalPadded(c[1..], n, x);
      assert (c + Zeros(n))[1..] == c[1..] + Zeros(n);
    }
  }

  // ---------- multiplication by a linear factor, as done in place ----------

  /** Coefficients of carry + (X - a) c, truncated to |c| coefficients. */
  function MulLinear(c: seq<int>, a: int, carry: int): (r: seq<int>)
    ensures |r| == |c|
    ensures forall d :: 0 <= d < |c| ==> r[d] == (if d == 0 then carry else c[d - 1]) - a * c[d]
  {
    if c == [] then [] else [carry - a * c[0]] + MulLinear(c[1..], a, c[0])
  }

  lemma MulLinearTail(c: seq<int>, a: int, carry: int)
    requires c != []
    ensures MulLinear(c, a, carry)[0] == carry - a * c[0] && MulLinear(c, a, carry)[1..] == MulLinear(c[1..], a, c[0])
  {
  }

  lemma {:induction false} EvalMulLinear(c: seq<int>, a: int, carry: int, x: int)
    requires c != [] && c[|c| - 1] == 0
    ensures Eval(MulLinear(c, a, carry), x) == carry + (x - a) * Eval(c, x)
  {
    MulLinearTail(c, a, carry);
    hide MulLinear;
    if |c| == 1 {
      assert c[1..] == [];
      LinearLast(a, carry, x);
    } else {
      EvalMulLinear(c[1..], a, c[0], x);
      LinearStep(carry, a, c[0], x, Eval(c[1..], x));
    }
  }

  lemma LinearLast(a: int, carry: int, x: int)
    ensures (carry - a * 0) + x * 0 == carry + (x - a) * (0 + x * 0)
  {
  }

  lemma LinearStep(carry: int, a: int, c: int, x: int, e: int)
    ensures (carry - a * c) + x * (c + (x - a) * e) == carry + (x - a) * (c + x * e)
  {
    assert x * ((x - a) * e) == (x - a) * (x * e);
    assert x * (c + (x - a) * e) == x * c + x * ((x - a) * e);
    assert (x - a) * (c + x * e) == (x - a) * c + (x - a) * (x * e);
  }

  // ---------- a polynomial with as many roots as coefficients is zero ----------

  /** The quotient of c by X - r. */
  function Quotient(c: seq<int>, r: int): (q: seq<int>)
    ensures |q| == if c == [] then 0 else |c| - 1
    ensures forall i :: 0 <= i < |q| ==> q[i] == Eval(c[i + 1..], r)
  {
    if |c| <= 1 then []
    else
      var q := Quotient(c[1..], r);
      assert forall i :: 0 <= i < |q| ==> q[i] == Eval(c[1..][i + 1..], r) && c[1..][i + 1..] == c[i + 2..];
      [Eval(c[1..], r)] + q
  }

  lemma {:induction false} QuotientLaw(c: seq<int>, r: int, x: int)
    requires c != []
    ensures Eval(c, x) == Eval(c, r) + (x - r) * Eval(Quotient(c, r), x)
  {
    if |c| == 1 {
      assert c[1..] == [];
      assert Eval(c, x) == c[0] + x * 0 && Eval(c, r) == c[0] + r * 0;
    } else {
      QuotientLaw(c[1..], r, x);
      var t, q := Eval(c[1..], r), Eval(Quotient(c[1..], r), x);
      assert Quotient(c, r)[1..] == Quotient(c[1..], r);
      QuotientStep(x, r, t, q);
    }
  }

  lemma QuotientStep(x: int, r: int, t: int, q: int)
    ensures x * (t + (x - r) * q) == r * t + (x - r) * (t + x * q)
  {
    assert x * (t + (x - r) * q) == x * t + x * ((x - r) * q);
    assert (x - r) * (t + x * q) == (x - r) * t + (x - r) * (x * q);
    assert x * ((x - r) * q) == (x - r) * (x * q);
    assert (x - r) * t == x * t - r * t;
  }

  ghost predicate DistinctPoints(xs: seq<int>) {
    forall i, j :: 0 <= i < j < |xs| ==> !Cong(xs[i], xs[j], P)
  }

  lemma {:induction false} RootBound(c: seq<int>, xs: seq<int>)
    requires |c| == |xs| && DistinctPoints(xs)
    requires forall i :: 0 <= i < |xs| ==> Cong(Eval(c, xs[i]), 0, P)
    ensures forall i :: 0 <= i < |c| ==> Cong(c[i], 0, P)
    decreases |c|
  {
    if c != [] {
      var r, q := xs[0], Quotient(c, xs[0]);
      forall i | 1 <= i < |xs|
        ensures Cong(Eval(q, xs[i]), 0, P)
      {
        OtherRoot(c, r, xs[i]);
      }
      RootBound(q, xs[1..]);
      forall i | 0 <= i < |c|
        ensures Cong(c[i], 0, P)
      {
        CoefficientVanishes(c, r, i);
      }
    }
  }

  lemma OtherRoot(c: seq<int>, r: int, x: int)
    requires c != [] && Cong(Eval(c, r), 0, P) && Cong(Eval(c, x), 0, P) && !Cong(r, x, P)
    ensures Cong(Eval(Quotient(c, r), x), 0, P)
  {
    QuotientLaw(c, r, x);
    var e := Eval(Quotient(c, r), x);
    CongAdd(Eval(c, x), 0, Eval(c, r), 0, P);
    assert Cong((x - r) * e, 0, P);
    PIsPrime();
    ZeroProductGeneral(P, x - r, e);
    if Cong(x - r, 0, P) {
      CongSym(x, r, P);
    }
  }

  lemma CoefficientVanishes(c: seq<int>, r: int, i: nat)
    requires i < |c| && Cong(Eval(c, r), 0, P)
    requires forall j :: 0 <= j < |c| - 1 ==> Cong(Quotient(c, r)[j], 0, P)
    ensures Cong(c[i], 0, P)
  {
    var e := Eval(c[i + 1..], r);
    assert Eval(c[i..], r) == c[i] + r * e by { assert c[i..][1..] == c[i + 1..]; }
    assert Cong(Eval(c[i..], r), 0, P) by {
      if i == 0 { assert c[0..] == c; } else { assert Quotient(c, r)[i - 1] == Eval(c[i..], r); }
    }
    assert Cong(e, 0, P) by {
      if i + 1 == |c| { CongRefl(0, P); } else { assert Quotient(c, r)[i] == e; }
    }
    CongRefl(r, P);
    CongMul(r, r, e, 0, P);
    CongAdd(Eval(c[i..], r), 0, r * e, r * 0, P);
  }

  /** Two polynomials with k canonical coefficients that agree at k distinct points are equal. */
  lemma AgreeingPolynomials(c: seq<Element>, d: seq<Element>, xs: seq<int>)
    requires |c| == |d| == |xs| && DistinctPoints(xs)
    requires forall i :: 0 <= i < |xs| ==> Cong(Eval(c, xs[i]), Eval(d, xs[i]), P)
    ensures c == d
  {
    var h := AddScaled(c, -1, d);
    forall i | 0 <= i < |xs|
      ensures Cong(Eval(h, xs[i]), 0, P)
    {
      EvalAddScaled(c, -1, d, xs[i]);
    }
    RootBound(h, xs);
    forall i | 0 <= i < |c|
      ensures c[i] == d[i]
    {
      assert Cong(h[i], 0, P);
      CongCanonical(c[i], d[i], P);
    }
  }
}
