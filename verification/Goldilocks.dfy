/** The Goldilocks field: P == 2^64 - 2^32 + 1 is prime, and 7 generates roots of unity of every order 2^m, m <= 32. */
module Goldilocks {
  import opened Numbers

  const P: int := 0xFFFF_FFFF_0000_0001
  const TWO_ADICITY: nat := 32

  /** A canonical field element. */
  type Element = x: int | 0 <= x < P witness 0

  lemma Double(e: nat, x: int, y: int) returns (f: nat)
    requires Cong(Pow(7, e), x, P) && (x * x * 7 - y) % P == 0
    ensures f == 2 * e + 1 && Cong(Pow(7, f), y, P)
  {
    f := 2 * e + 1;
    var b := Pow(7, e);
    PowAdd(7, e, e);
    assert Pow(7, f) == 7 * (b * b);
    CongMul(b, x, b, x, P);
    CongRefl(7, P);
    CongMul(7, 7, b * b, x * x, P);
    CongTrans(7 * (b * b), x * x * 7, y, P);
  }

  lemma Square(e: nat, x: int, y: int) returns (f: nat)
    requires Cong(Pow(7, e), x, P) && (x * x - y) % P == 0
    ensures f == 2 * e && Cong(Pow(7, f), y, P)
  {
    f := 2 * e;
    var b := Pow(7, e);
    PowAdd(7, e, e);
    CongMul(b, x, b, x, P);
    CongTrans(b * b, x * x, y, P);
  }

  // The 62 multiplications that take 7 to the power (P - 1) / 2: exponents 2^(i+1) - 1 first, then doublings.

  lemma Doublings0(e: nat) returns (f: nat)
    requires Cong(Pow(7, e), 7, P)
    ensures f == 65536 * e + 65535 && Cong(Pow(7, f), 4326791766630348883, P)
  {
    hide Pow, Cong;
    f := e;
    f := Double(f, 7, 343);
    f := Double(f, 343, 823543);
    f := Double(f, 823543, 4747561509943);
    f := Double(f, 4747561509943, 11074261478625843323);
    f := Double(f, 11074261478625843323, 12148266161370408270);
    f := Double(f, 12148266161370408270, 7007601668316978083);
    f := Double(f, 7007601668316978083, 8125271997680889877);
    f := Double(f, 8125271997680889877, 2624486902016877951);
    f := Double(f, 2624486902016877951, 8253119735826302939);
    f := Double(f, 8253119735826302939, 3543566522599720475);
    f := Double(f, 3543566522599720475, 11981551684735969599);
    f := Double(f, 11981551684735969599, 10062120588441922115);
    f := Double(f, 10062120588441922115, 10485806445487905393);
    f := Double(f, 10485806445487905393, 4139485063330164956);
    f := Double(f, 4139485063330164956, 12134830135347446949);
    f := Double(f, 12134830135347446949, 4326791766630348883);
  }

  lemma Doublings1(e: nat) returns (f: nat)
    requires Cong(Pow(7, e), 4326791766630348883, P)
    ensures f == 32768 * e + 32767 && Cong(Pow(7, f), 1753635133440165772, P)
  {
    hide Pow, Cong;
    f := e;
    f := Double(f, 4326791766630348883, 206761543466863628);
    f := Double(f, 206761543466863628, 10086585273483141421);
    f := Double(f, 10086585273483141421, 1855730417186139594);
    f := Double(f, 1855730417186139594, 7626447102712710903);
    f := Double(f, 7626447102712710903, 7790920094560990216);
    f := Double(f, 7790920094560990216, 5901922255895126089);
    f := Double(f, 5901922255895126089, 8935258787870022506);
    f := Double(f, 8935258787870022506, 13093775858033092690);
    f := Double(f, 13093775858033092690, 11243737384857129666);
    f := Double(f, 11243737384857129666, 2063617152444052883);
    f := Double(f, 2063617152444052883, 13064848991504552222);
    f := Double(f, 13064848991504552222, 16593403251012455084);
    f := Double(f, 16593403251012455084, 5859133952941131217);
    f := Double(f, 5859133952941131217, 15659105665374529263);
    f := Double(f, 15659105665374529263, 1753635133440165772);
  }

  lemma Squarings0(e: nat) returns (f: nat)
    requires Cong(Pow(7, e), 1753635133440165772, P)
    ensures f == 65536 * e && Cong(Pow(7, f), 6115771955107415310, P)
  {
    hide Pow, Cong;
    f := e;
    f := Square(f, 1753635133440165772, 4614640910117430873);
    f := Square(f, 4614640910117430873, 9123114210336311365);
    f := Square(f, 9123114210336311365, 16116352524544190054);
    f := Square(f, 16116352524544190054, 6414415596519834757);
    f := Square(f, 6414415596519834757, 1213594585890690845);
    f := Square(f, 1213594585890690845, 17096174751763063430);
    f := Square(f, 17096174751763063430, 5456943929260765144);
    f := Square(f, 5456943929260765144, 9713644485405565297);
    f := Square(f, 9713644485405565297, 16905767614792059275);
    f := Square(f, 16905767614792059275, 5416168637041100469);
    f := Square(f, 5416168637041100469, 17654865857378133588);
    f := Square(f, 17654865857378133588, 3511170319078647661);
    f := Square(f, 3511170319078647661, 18146160046829613826);
    f := Square(f, 18146160046829613826, 9306717745644682924);
    f := Square(f, 9306717745644682924, 12380578893860276750);
    f := Square(f, 12380578893860276750, 6115771955107415310);
  }

  lemma Squarings1(e: nat) returns (f: nat)
    requires Cong(Pow(7, e), 6115771955107415310, P)
    ensures f == 32768 * e && Cong(Pow(7, f), 18446744069414584320, P)
  {
    hide Pow, Cong;
    f := e;
    f := Square(f, 6115771955107415310, 17776499369601055404);
    f := Square(f, 17776499369601055404, 16207902636198568418);
    f := Square(f, 16207902636198568418, 1532612707718625687);
    f := Square(f, 1532612707718625687, 17492915097719143606);
    f := Square(f, 17492915097719143606, 455906449640507599);
    f := Square(f, 455906449640507599, 11353340290879379826);
    f := Square(f, 11353340290879379826, 1803076106186727246);
    f := Square(f, 1803076106186727246, 13797081185216407910);
    f := Square(f, 13797081185216407910, 17870292113338400769);
    f := Square(f, 17870292113338400769, 549755813888);
    f := Square(f, 549755813888, 70368744161280);
    f := Square(f, 70368744161280, 17293822564807737345);
    f := Square(f, 17293822564807737345, 18446744069397807105);
    f := Square(f, 18446744069397807105, 281474976710656);
    f := Square(f, 281474976710656, 18446744069414584320);
  }

  lemma Pow2Literal()
    ensures Pow2(31) == 0x8000_0000 && Pow2(32) == 0x1_0000_0000
  {
    assert Pow2(8) == 256;
    PowAdd(2, 8, 8);
    PowAdd(2, 16, 8);
    PowAdd(2, 24, 7);
    assert Pow2(7) == 128;
    PowAdd(2, 31, 1);
    assert Pow(2, 1) == 2;
  }

  lemma SevenIsNonResidue()
    ensures Cong(Pow(7, (P - 1) / 2), -1, P)
  {
    assert Pow(7, 1) == 7 * Pow(7, 0) == 7;
    var e := Doublings0(1);
    e := Doublings1(e);
    e := Squarings0(e);
    e := Squarings1(e);
    CongTrans(Pow(7, e), P - 1, -1, P);
  }

  lemma PIsPrime()
    ensures IsPrime(P)
  {
    Pow2Literal();
    SevenIsNonResidue();
    Proth(P, 0xFFFF_FFFF, 31, 7);
  }

  // ---------- field operations ----------

  function Reduce(x: int): (r: Element) {
    x % P
  }

  function Add(a: int, b: int): (r: Element) {
    Reduce(a + b)
  }

  function Sub(a: int, b: int): (r: Element) {
    Reduce(a - b)
  }

  function Mul(a: int, b: int): (r: Element) {
    Reduce(a * b)
  }

  function Neg(a: int): (r: Element) {
    Reduce(0 - a)
  }

  lemma ReduceFixed(a: Element)
    ensures Reduce(a) == a
  {
  }

  lemma MulReduce(a: int, b: int)
    ensures Mul(Reduce(a), b) == Mul(a, b) && Mul(b, Reduce(a)) == Mul(a, b)
  {
    CongMod(a, P);
    CongRefl(b, P);
    CongMul(Reduce(a), a, b, b, P);
    CongSameMod(Reduce(a) * b, a * b, P);
    assert b * Reduce(a) == Reduce(a) * b;
  }

  lemma AddReduce(a: int, b: int)
    ensures Add(Reduce(a), Reduce(b)) == Reduce(a + b)
    ensures Sub(Reduce(a), Reduce(b)) == Reduce(a - b)
  {
    CongMod(a, P);
    CongMod(b, P);
    CongAdd(Reduce(a), a, Reduce(b), b, P);
    CongSameMod(Reduce(a) + Reduce(b), a + b, P);
    CongSameMod(Reduce(a) - Reduce(b), a - b, P);
  }

  /** Goldilocks inversion: a^(P - 2), which sends 0 to 0. */
  function Inv(a: Element): (r: Element) {
    Reduce(Pow(a, P - 2))
  }

  lemma InvIsInverse(a: Element)
    requires a != 0
    ensures Cong(a * Inv(a), 1, P)
  {
    PIsPrime();
    CongCanonicalZero(a, P);
    Fermat(a, P);
    PredecessorPower(a, P - 1);
    CongMod(Pow(a, P - 2), P);
    CongRefl(a, P);
    CongMul(a, a, Inv(a), Pow(a, P - 2), P);
    CongTrans(a * Inv(a), a * Pow(a, P - 2), 1, P);
  }

  lemma PredecessorPower(a: int, e: nat)
    requires e > 0
    ensures Pow(a, e) == a * Pow(a, e - 1)
  {
  }

  lemma {:induction false} PowNonZero(b: int, e: nat)
    requires !Cong(b, 0, P)
    ensures !Cong(Pow(b, e), 0, P)
  {
    if e == 0 {
    } else {
      PowNonZero(b, e - 1);
      if Cong(Pow(b, e), 0, P) {
        PIsPrime();
        ZeroProductGeneral(P, b, Pow(b, e - 1));
      }
    }
  }

  // ---------- roots of unity ----------

  /** The transform sizes the field supports: the powers of two that divide P - 1. */
  ghost predicate IsTransformSize(n: int) {
    exists m: nat :: m <= TWO_ADICITY && n == Pow2(m)
  }

  /** The n-th root of unity used by both transforms. */
  function Omega(n: nat): (w: Element)
    requires n > 0
  {
    Reduce(Pow(7, (P - 1) / n))
  }

  lemma SizeDivides(m: nat)
    requires m <= TWO_ADICITY
    ensures (P - 1) / Pow2(m) * Pow2(m) == P - 1
  {
    Pow2Literal();
    PowAdd(2, m, 32 - m);
    ExactQuotient(P - 1, Pow2(m), Pow2(32 - m), 0xFFFF_FFFF);
  }

  lemma ExactQuotient(n: int, a: int, b: int, h: int)
    requires a > 0 && n == h * (a * b)
    ensures n / a * a == n
  {
    assert n == (h * b) * a;
    ModUnique(n, a, h * b, 0);
  }

  lemma OmegaHalfPower(m: nat)
    requires 0 < m <= TWO_ADICITY
    ensures Cong(Pow(Omega(Pow2(m)), Pow2(m - 1)), -1, P)
  {
    SizeDivides(m);
    var c, h := (P - 1) / Pow2(m), Pow2(m - 1);
    assert Pow2(m) == 2 * h;
    assert c * (2 * h) == 2 * (c * h);
    CongMod(Pow(7, c), P);
    CongPow(Omega(Pow2(m)), Pow(7, c), h, P);
    PowMul(7, c, h);
    SevenIsNonResidue();
    CongTrans(Pow(Omega(Pow2(m)), h), Pow(7, c * h), -1, P);
  }

  lemma OmegaNonZero(n: nat)
    requires n > 0
    ensures !Cong(Omega(n), 0, P)
  {
    var c := (P - 1) / n;
    CongMod(Pow(7, c), P);
    PowNonZero(7, c);
    if Cong(Omega(n), 0, P) {
      CongTrans(Pow(7, c), Omega(n), 0, P);
    }
  }

  /** A power of omega below n is 1 only at exponent 0: omega has order exactly n. */
  lemma OmegaPowerNotOne(m: nat, d: nat)
    requires m <= TWO_ADICITY && 0 < d < Pow2(m)
    ensures !Cong(Pow(Omega(Pow2(m)), d), 1, P)
  {
    if Cong(Pow(Omega(Pow2(m)), d), 1, P) {
      OmegaHalfPower(m);
      OrderIsMultiple(Omega(Pow2(m)), m - 1, d, P);
      ModUnique(d, Pow2(m), 0, d);
    }
  }

  lemma UnitCancels(a: int, b: int)
    requires !Cong(a, 0, P) && Cong(a, a * b, P)
    ensures Cong(b, 1, P)
  {
    PIsPrime();
    assert a - a * b == a * (1 - b);
    assert Cong(a * (1 - b), 0, P);
    ZeroProductGeneral(P, a, 1 - b);
    CongSym(1, b, P);
  }

  /** The evaluation points of distinct shard indices are distinct. */
  lemma OmegaPowersDistinct(n: nat, i: nat, j: nat)
    requires IsTransformSize(n) && i < j < n
    ensures !Cong(Pow(Omega(n), i), Pow(Omega(n), j), P)
  {
    var m: nat :| m <= TWO_ADICITY && n == Pow2(m);
    var w := Omega(n);
    if Cong(Pow(w, i), Pow(w, j), P) {
      PowAdd(w, i, j - i);
      OmegaNonZero(n);
      PowNonZero(w, i);
      UnitCancels(Pow(w, i), Pow(w, j - i));
      OmegaPowerNotOne(m, j - i);
    }
  }

  function ZeroElements(n: nat): (z: seq<Element>)
    ensures |z| == n && forall i :: 0 <= i < n ==> z[i] == 0
  {
    seq(n, _ => 0)
  }
}
