/** The delay function (src/vdf.rs): sequential squaring in the Goldilocks field, its verifier, and the shortcut that the
    public group order gives. */
module Vdf {
  import opened Numbers
  import opened Goldilocks

  datatype VdfProof = VdfProof(input: nat, output: nat, iterations: nat)

  /** The element squaring starts from: zero is replaced by one. */
  function Start(input: nat): (x: Element)
    ensures x != 0
  {
    if Reduce(input) == 0 then 1 else Reduce(input)
  }

  /** input^(2^T). */
  function Output(input: nat, iterations: nat): (y: Element) {
    Reduce(Pow(Start(input), Pow2(iterations)))
  }

  lemma SquareStep(x: int, e: nat)
    ensures Mul(Reduce(Pow(x, e)), Reduce(Pow(x, e))) == Reduce(Pow(x, 2 * e))
  {
    PowAdd(x, e, e);
    MulReduce(Pow(x, e), Reduce(Pow(x, e)));
    MulReduce(Pow(x, e), Pow(x, e));
  }

  method Evaluate(input: nat, iterations: nat) returns (proof: VdfProof)
    ensures proof == VdfProof(input, Output(input, iterations), iterations)
  {
    var x := Start(input);
    ReduceFixed(x);
    assert Pow(Start(input), 1) == Start(input) * Pow(Start(input), 0);
    var t := 0;
    while t < iterations
      invariant 0 <= t <= iterations
      invariant x == Reduce(Pow(Start(input), Pow2(t)))
    {
      SquareStep(Start(input), Pow2(t));
      assert Pow2(t + 1) == 2 * Pow2(t);
      x := Mul(x, x);
      t := t + 1;
    }
    proof := VdfProof(input, x, iterations);
  }

  /** What verification accepts: the true output, and at T == 0 instead the input itself, or one for zero. */
  predicate Accepts(proof: VdfProof) {
    if proof.iterations > 0 then proof.output == Output(proof.input, proof.iterations)
    else proof.output == proof.input || (proof.input == 0 && proof.output == Output(0, 0))
  }

  method Verify(proof: VdfProof) returns (ok: bool)
    ensures ok <==> Accepts(proof)
  {
    if proof.iterations == 0 {
      NoSquarings(proof.input);
      return proof.input == proof.output || (proof.input == 0 && proof.output == 1);
    }
    var expected := Evaluate(proof.input, proof.iterations);
    return expected.output == proof.output;
  }

  lemma NoSquarings(input: nat)
    ensures Output(input, 0) == Start(input)
    ensures input < P ==> Start(input) == if input == 0 then 1 else input
  {
    assert Pow(Start(input), 1) == Start(input) * Pow(Start(input), 0);
    ReduceFixed(Start(input));
  }

  /** Exactly the true output is accepted, unless T == 0 and the input is zero or not below P. */
  lemma ExactIff(input: nat, t: nat)
    ensures (forall y: nat :: Accepts(VdfProof(input, y, t)) <==> y == Output(input, t)) <==> t > 0 || 0 < input < P
  {
    NoSquarings(input);
    assert Accepts(VdfProof(input, input, 0));
    if t == 0 && (input == 0 || input >= P) {
      assert Accepts(VdfProof(input, input, t)) && input != Output(input, t);
    }
  }

  /** The proof that evaluation itself returns is refused exactly at T == 0 for an input not below P. */
  lemma OwnProofAcceptedIff(input: nat, t: nat)
    ensures Accepts(VdfProof(input, Output(input, t), t)) <==> t > 0 || input < P
  {
    NoSquarings(input);
    NoSquarings(0);
  }

  lemma OutputNonZero(input: nat, t: nat)
    ensures Output(input, t) != 0
  {
    CongCanonicalZero(Start(input), P);
    PowNonZero(Start(input), Pow2(t));
    CongSameMod(Pow(Start(input), Pow2(t)), 0, P);
  }

  /** a squarings followed by b squarings are a + b squarings. */
  lemma Composes(input: nat, a: nat, b: nat)
    ensures Output(Output(input, a), b) == Output(input, a + b)
  {
    var x, y := Start(input), Output(input, a);
    OutputNonZero(input, a);
    ReduceFixed(y);
    CongMod(Pow(x, Pow2(a)), P);
    CongPow(y, Pow(x, Pow2(a)), Pow2(b), P);
    PowMul(x, Pow2(a), Pow2(b));
    PowAdd(2, a, b);
    CongSameMod(Pow(y, Pow2(b)), Pow(x, Pow2(a + b)), P);
  }

  // ---------- the group order is public ----------

  /** Exponents that agree modulo P - 1 give the same power. */
  lemma ExponentReduces(x: Element, e: nat)
    requires x != 0
    ensures Cong(Pow(x, e), Pow(x, e % (P - 1)), P)
  {
    var q, r := e / (P - 1), e % (P - 1);
    PIsPrime();
    CongCanonicalZero(x, P);
    Fermat(x, P);
    PowMul(x, P - 1, q);
    CongPow(Pow(x, P - 1), 1, q, P);
    PowOne(q);
    PowAdd(x, (P - 1) * q, r);
    CongRefl(Pow(x, r), P);
    CongMul(Pow(x, (P - 1) * q), 1, Pow(x, r), Pow(x, r), P);
  }

  /** One exponentiation by 2^T mod (P - 1) replaces the T squarings. */
  lemma Shortcut(input: nat, t: nat)
    ensures Output(input, t) == Reduce(Pow(Start(input), Pow2(t) % (P - 1)))
  {
    ExponentReduces(Start(input), Pow2(t));
    CongSameMod(Pow(Start(input), Pow2(t)), Pow(Start(input), Pow2(t) % (P - 1)), P);
  }

  /** Past 32 squarings the exponent repeats every 32. */
  lemma ExponentPeriod(t: nat)
    requires t >= 32
    ensures Pow2(t + 32) % (P - 1) == Pow2(t) % (P - 1)
  {
    Pow2Literal();
    PowAdd(2, t, 32);
    PowAdd(2, 32, t - 32);
    var c := Pow2(t - 32);
    assert Pow2(t + 32) - Pow2(t) == (0x1_0000_0000 * c) * 0x1_0000_0000 - 0x1_0000_0000 * c == c * (P - 1);
    CongIntro(Pow2(t + 32), Pow2(t), P - 1, c);
    CongSameMod(Pow2(t + 32), Pow2(t), P - 1);
  }

  /** The exponent's period past 32 squarings is exactly 32. */
  lemma ExponentPeriodIff(t: nat, d: nat)
    requires t >= 32
    ensures Pow2(t + d) % (P - 1) == Pow2(t) % (P - 1) <==> d % 32 == 0
  {
    ExponentRepeats(t, d);
    var r := d % 32;
    if Pow2(t + r) % (P - 1) == Pow2(t) % (P - 1) {
      OddPartRepeats(t, r);
      PowerUnderOddPart(r);
    }
  }

  lemma {:induction false} ExponentRepeats(t: nat, d: nat)
    requires t >= 32
    ensures Pow2(t + d) % (P - 1) == Pow2(t + d % 32) % (P - 1)
    decreases d
  {
    if d >= 32 {
      ExponentRepeats(t, d - 32);
      ExponentPeriod(t + (d - 32));
      assert (d - 32) % 32 == d % 32;
    }
  }

  /** The odd part of the group order. */
  const ODD_PART: nat := 0xFFFF_FFFF

  /** Modulo the odd part 2 can be divided out. */
  lemma OddPartRepeats(t: nat, r: nat)
    requires Pow2(t + r) % (P - 1) == Pow2(t) % (P - 1)
    ensures Cong(Pow2(r), 1, ODD_PART)
  {
    CongSameMod(Pow2(t + r), Pow2(t), P - 1);
    var k := CongWitness(Pow2(t + r), Pow2(t), P - 1);
    assert k * (P - 1) == (k * 0x1_0000_0000) * ODD_PART;
    CongIntro(Pow2(t + r), Pow2(t), ODD_PART, k * 0x1_0000_0000);
    var u := 31 * t;
    PowAdd(2, t, r);
    PowAdd(2, u, t);
    CongRefl(Pow2(u), ODD_PART);
    CongMul(Pow2(u), Pow2(u), Pow2(t + r), Pow2(t), ODD_PART);
    assert Pow2(u) * (Pow2(t) * Pow2(r)) == (Pow2(u) * Pow2(t)) * Pow2(r);
    WholeTurns(t);
    CongRefl(Pow2(r), ODD_PART);
    CongMul(Pow2(32 * t), 1, Pow2(r), Pow2(r), ODD_PART);
    CongSym(Pow2(32 * t) * Pow2(r), Pow2(r), ODD_PART);
    CongTrans(Pow2(r), Pow2(32 * t) * Pow2(r), Pow2(32 * t), ODD_PART);
    CongTrans(Pow2(r), Pow2(32 * t), 1, ODD_PART);
  }

  lemma WholeTurns(t: nat)
    ensures Cong(Pow2(32 * t), 1, ODD_PART)
  {
    Pow2Literal();
    CongIntro(Pow2(32), 1, ODD_PART, 1);
    PowMul(2, 32, t);
    CongPow(Pow2(32), 1, t, ODD_PART);
    PowOne(t);
  }

  lemma PowerUnderOddPart(r: nat)
    requires r < 32 && Cong(Pow2(r), 1, ODD_PART)
    ensures r == 0
  {
    if r > 0 {
      Pow2Literal();
      PowAdd(2, r, 31 - r);
      PowPositive(r - 1);
      PowPositive(31 - r);
      assert Pow2(r) == 2 * Pow2(r - 1);
      AtMostProduct(Pow2(r), Pow2(31 - r));
      CongCanonical(Pow2(r), 1, ODD_PART);
    }
  }

  lemma AtMostProduct(a: nat, b: nat)
    requires b > 0
    ensures a <= a * b
  {
  }

  lemma {:induction false} PowPositive(n: nat)
    ensures Pow2(n) > 0
  {
    if n > 0 {
      PowPositive(n - 1);
    }
  }

  lemma OutputPeriod(input: nat, t: nat)
    requires t >= 32
    ensures Output(input, t + 32) == Output(input, t)
  {
    ExponentPeriod(t);
    Shortcut(input, t);
    Shortcut(input, t + 32);
  }

  /** Every output past 32 squarings is one of 32 values, picked by T modulo 32. */
  lemma {:induction false} ThirtyTwoAnswers(input: nat, t: nat)
    requires t >= 32
    ensures Output(input, t) == Output(input, 32 + t % 32)
  {
    if t >= 64 {
      ThirtyTwoAnswers(input, t - 32);
      OutputPeriod(input, t - 32);
      assert (t - 32) % 32 == t % 32;
    } else {
      assert t == 32 + t % 32;
    }
  }

  /** An input whose outputs go through 32 different values: its order is 65537, modulo which 2 has order 32. */
  const CYCLIC: nat := 0x75AB_0DE7_0CF3_ED11

  /** Squaring the output after i squarings, given as a number. */
  lemma SquareTo(i: nat, x: nat, y: nat)
    requires Output(CYCLIC, i) == x && x * x % P == y
    ensures Output(CYCLIC, i + 1) == y
  {
    assert Pow2(i + 1) == 2 * Pow2(i);
    SquareStep(Start(CYCLIC), Pow2(i));
  }

  lemma CycleFrom0()
    ensures forall i :: 0 < i <= 16 ==> Output(CYCLIC, i) != CYCLIC
    ensures Output(CYCLIC, 0) == CYCLIC && Output(CYCLIC, 16) == 0x358B_60A2_EB2B_701B
  {
    NoSquarings(CYCLIC);
    hide Output;
    SquareTo(0, 0x75AB_0DE7_0CF3_ED11, 0x2AEA_E1BC_8675_21B7);
    SquareTo(1, 0x2AEA_E1BC_8675_21B7, 0xA649_340C_12B3_9ADD);
    SquareTo(2, 0xA649_340C_12B3_9ADD, 0x08E0_8BF0_3501_1EEB);
    SquareTo(3, 0x08E0_8BF0_3501_1EEB, 0xA412_3045_5B17_8F2E);
    SquareTo(4, 0xA412_3045_5B17_8F2E, 0xD2D7_4476_A5A0_096B);
    SquareTo(5, 0xD2D7_4476_A5A0_096B, 0x36BF_3810_4D1E_D025);
    SquareTo(6, 0x36BF_3810_4D1E_D025, 0xFE7E_F81C_130F_B44D);
    SquareTo(7, 0xFE7E_F81C_130F_B44D, 0xC3E8_4BD1_2F15_D698);
    SquareTo(8, 0xC3E8_4BD1_2F15_D698, 0x68E3_53DC_F391_EAF1);
    SquareTo(9, 0x68E3_53DC_F391_EAF1, 0xFB7F_F3B6_FC6E_7092);
    SquareTo(10, 0xFB7F_F3B6_FC6E_7092, 0x1716_C532_DD4F_FF10);
    SquareTo(11, 0x1716_C532_DD4F_FF10, 0xA84B_35ED_6782_0B3E);
    SquareTo(12, 0xA84B_35ED_6782_0B3E, 0xDBEF_E1DE_A482_182C);
    SquareTo(13, 0xDBEF_E1DE_A482_182C, 0x4675_1476_BF8D_1B43);
    SquareTo(14, 0x4675_1476_BF8D_1B43, 0x67D8_7D1F_4A61_EFE6);
    SquareTo(15, 0x67D8_7D1F_4A61_EFE6, 0x358B_60A2_EB2B_701B);
  }

  lemma CycleFrom16()
    ensures forall i :: 16 <= i < 32 ==> Output(CYCLIC, i) != CYCLIC
    ensures Output(CYCLIC, 32) == CYCLIC
  {
    CycleFrom0();
    hide Output;
    SquareTo(16, 0x358B_60A2_EB2B_701B, 0x852E_DF01_D630_AB4E);
    SquareTo(17, 0x852E_DF01_D630_AB4E, 0x958C_60EB_031B_D0CF);
    SquareTo(18, 0x958C_60EB_031B_D0CF, 0xA179_2784_8143_7005);
    SquareTo(19, 0xA179_2784_8143_7005, 0x559E_BC6E_6BD6_1A70);
    SquareTo(20, 0x559E_BC6E_6BD6_1A70, 0xC91B_8D43_42BC_7D98);
    SquareTo(21, 0xC91B_8D43_42BC_7D98, 0x8968_2344_BDF2_494B);
    SquareTo(22, 0x8968_2344_BDF2_494B, 0xC8A4_9D11_DB03_B62A);
    SquareTo(23, 0xC8A4_9D11_DB03_B62A, 0xEA92_6090_7FE4_CE5B);
    SquareTo(24, 0xEA92_6090_7FE4_CE5B, 0xEAEA_1352_3871_CC6A);
    SquareTo(25, 0xEAEA_1352_3871_CC6A, 0x366D_346F_FE47_D206);
    SquareTo(26, 0x366D_346F_FE47_D206, 0xFEAB_B02C_16AD_1161);
    SquareTo(27, 0xFEAB_B02C_16AD_1161, 0xCA1D_EDCA_DBCC_818E);
    SquareTo(28, 0xCA1D_EDCA_DBCC_818E, 0x9536_ADA0_3097_677F);
    SquareTo(29, 0x9536_ADA0_3097_677F, 0x15D6_C95D_5CCA_1AF4);
    SquareTo(30, 0x15D6_C95D_5CCA_1AF4, 0x9A70_A848_5255_7F3F);
    SquareTo(31, 0x9A70_A848_5255_7F3F, 0x75AB_0DE7_0CF3_ED11);
  }

  /** Past 32 squarings the outputs of all inputs repeat after d squarings exactly if 32 divides d. */
  lemma OutputPeriodIff(t: nat, d: nat)
    requires t >= 32
    ensures (forall input: nat :: Output(input, t + d) == Output(input, t)) <==> d % 32 == 0
  {
    if d % 32 == 0 {
      forall input: nat
        ensures Output(input, t + d) == Output(input, t)
      {
        ExponentPeriodIff(t, d);
        Shortcut(input, t);
        Shortcut(input, t + d);
      }
    } else if forall input: nat :: Output(input, t + d) == Output(input, t) {
      CycleReturns(t, d);
    }
  }

  lemma CycleReturns(t: nat, d: nat)
    requires t >= 32 && Output(CYCLIC, t + d) == Output(CYCLIC, t)
    ensures d % 32 == 0
  {
    hide Output;
    var u := 31 * t;
    Composes(CYCLIC, t, u);
    Composes(CYCLIC, t + d, u);
    assert t + d + u == 32 * t + d;
    CycleTurns(t, d);
    CycleTurns(t, 0);
    CycleFrom0();
    if d % 32 > 16 {
      CycleFrom16();
    }
  }

  /** After any number of whole turns of 32. */
  lemma CycleTurns(t: nat, d: nat)
    ensures Output(CYCLIC, 32 * t + d) == Output(CYCLIC, d % 32)
  {
    var n := 32 * t + d;
    assert n % 32 == d % 32;
    WholeTurn(n);
  }

  lemma {:induction false} WholeTurn(n: nat)
    ensures Output(CYCLIC, n) == Output(CYCLIC, n % 32)
  {
    hide Output;
    if n >= 32 {
      CycleFrom16();
      Composes(CYCLIC, 32, n - 32);
      WholeTurn(n - 32);
      assert (n - 32) % 32 == n % 32;
    }
  }

  /** Square-and-multiply: base^e mod m. */
  method PowMod(base: nat, e: nat, m: nat) returns (acc: nat)
    requires m > 1
    ensures acc == Pow(base, e) % m
  {
    acc := 1;
    var b: nat := base % m;
    var rest: nat := e;
    CongMod(base, m);
    CongPow(b, base, e, m);
    assert acc * Pow(b, rest) == Pow(b, e);
    while rest > 0
      invariant acc < m && Cong(acc * Pow(b, rest), Pow(base, e), m)
    {
      ghost var a0 := acc;
      PowHalves(b, rest);
      if rest % 2 == 1 {
        acc := acc * b % m;
        CongMod(a0 * b, m);
      } else {
        CongRefl(a0, m);
      }
      SquareMultiplyStep(a0, acc, b, rest, m, Pow(base, e));
      b := b * b % m;
      rest := rest / 2;
    }
    assert acc * Pow(b, 0) == acc;
    CongSameMod(acc, Pow(base, e), m);
    ModUnique(acc, m, 0, acc);
  }

  lemma PowHalves(b: int, e: nat)
    requires e > 0
    ensures Pow(b, e) == (if e % 2 == 1 then b else 1) * Pow(b * b, e / 2)
  {
    var h := e / 2;
    assert Pow(b, 2) == b * Pow(b, 1) == b * (b * Pow(b, 0)) == b * b;
    PowMul(b, 2, h);
    if e % 2 == 1 {
      assert Pow(b, e) == b * Pow(b, e - 1);
    }
  }

  lemma SquareMultiplyStep(a0: nat, a1: nat, b: nat, e: nat, m: nat, target: int)
    requires m > 1 && e > 0 && Cong(a0 * Pow(b, e), target, m)
    requires Cong(a1, if e % 2 == 1 then a0 * b else a0, m)
    ensures Cong(a1 * Pow(b * b % m, e / 2), target, m)
  {
    var f, g := Pow(b * b % m, e / 2), Pow(b * b, e / 2);
    var c := if e % 2 == 1 then a0 * b else a0;
    PowHalves(b, e);
    CongMod(b * b, m);
    CongPow(b * b % m, b * b, e / 2, m);
    CongMul(a1, c, f, g, m);
    assert c * g == a0 * Pow(b, e) by {
      assert (a0 * b) * g == a0 * (b * g);
    }
    CongTrans(a1 * f, c * g, target, m);
  }

  /** The precomputed answer: no sequence of T squarings anywhere. */
  method FastForward(input: nat, iterations: nat) returns (output: nat)
    ensures output == Output(input, iterations)
  {
    var reduced := PowMod(2, iterations, P - 1);
    output := PowMod(Start(input), reduced, P);
    Shortcut(input, iterations);
  }
}
