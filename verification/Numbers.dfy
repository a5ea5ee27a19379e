/** Integers modulo m: congruence, powers, primes, Fermat's theorem and Proth's primality test.
    Everything here is about unbounded integers; Goldilocks.dfy applies it to the field of the protocol. */
module Numbers {
  import opened Sequences

  ghost predicate Cong(a: int, b: int, m: int)
    requires m > 0
  {
    (a - b) % m == 0
  }

  lemma ModUnique(a: int, m: int, q: int, r: int)
    requires m > 0 && a == q * m + r && 0 <= r < m
    ensures a % m == r && a / m == q
  {
    var q', r' := a / m, a % m;
    assert r - r' == (q' - q) * m;
    assert q' - q >= 1 ==> (q' - q - 1) * m >= 0;
    assert q' - q <= -1 ==> (q - q' - 1) * m >= 0;
  }

  lemma CongIntro(a: int, b: int, m: int, k: int)
    requires m > 0 && a - b == k * m
    ensures Cong(a, b, m)
  {
    ModUnique(a - b, m, k, 0);
  }

  lemma CongWitness(a: int, b: int, m: int) returns (k: int)
    requires m > 0 && Cong(a, b, m)
    ensures a - b == k * m
  {
    k := (a - b) / m;
  }

  lemma CongRefl(a: int, m: int)
    requires m > 0
    ensures Cong(a, a, m)
  {
    CongIntro(a, a, m, 0);
  }

  lemma CongMod(a: int, m: int)
    requires m > 0
    ensures Cong(a % m, a, m) && Cong(a, a % m, m)
  {
    CongIntro(a, a % m, m, a / m);
    CongIntro(a % m, a, m, -(a / m));
  }

  lemma CongSym(a: int, b: int, m: int)
    requires m > 0 && Cong(a, b, m)
    ensures Cong(b, a, m)
  {
    var k := CongWitness(a, b, m);
    CongIntro(b, a, m, -k);
  }

  lemma CongTrans(a: int, b: int, c: int, m: int)
    requires m > 0 && Cong(a, b, m) && Cong(b, c, m)
    ensures Cong(a, c, m)
  {
    var k := CongWitness(a, b, m);
    var l := CongWitness(b, c, m);
    CongIntro(a, c, m, k + l);
  }

  lemma CongAdd(a: int, b: int, c: int, d: int, m: int)
    requires m > 0 && Cong(a, b, m) && Cong(c, d, m)
    ensures Cong(a + c, b + d, m) && Cong(a - c, b - d, m)
  {
    var k := CongWitness(a, b, m);
    var l := CongWitness(c, d, m);
    CongIntro(a + c, b + d, m, k + l);
    CongIntro(a - c, b - d, m, k - l);
  }

  lemma CongMul(a: int, b: int, c: int, d: int, m: int)
    requires m > 0 && Cong(a, b, m) && Cong(c, d, m)
    ensures Cong(a * c, b * d, m)
  {
    var k := CongWitness(a, b, m);
    var l := CongWitness(c, d, m);
    assert a * c - b * d == (a - b) * c + b * (c - d) == (k * c + b * l) * m;
    CongIntro(a * c, b * d, m, k * c + b * l);
  }

  /** Two canonical residues that are congruent are equal. */
  lemma CongCanonical(a: int, b: int, m: int)
    requires m > 0 && Cong(a, b, m) && 0 <= a < m && 0 <= b < m
    ensures a == b
  {
    var k := CongWitness(a, b, m);
    assert k >= 1 ==> (k - 1) * m >= 0;
    assert k <= -1 ==> (-k - 1) * m >= 0;
  }

  lemma CongSameMod(a: int, b: int, m: int)
    requires m > 0
    ensures Cong(a, b, m) <==> a % m == b % m
  {
    CongMod(a, m);
    CongMod(b, m);
    if Cong(a, b, m) {
      CongTrans(a % m, a, b, m);
      CongTrans(a % m, b, b % m, m);
      CongCanonical(a % m, b % m, m);
    }
    if a % m == b % m {
      CongTrans(a, b % m, b, m);
    }
  }

  /** A congruence modulo a multiple of m is a congruence modulo m. */
  lemma CongDivisor(a: int, b: int, m: int, c: int)
    requires m > 0 && c > 0 && m * c > 0 && Cong(a, b, m * c)
    ensures Cong(a, b, m)
  {
    var k := CongWitness(a, b, m * c);
    assert k * (m * c) == (k * c) * m;
    CongIntro(a, b, m, k * c);
  }

  // ---------- powers ----------

  function Pow(b: int, e: nat): int {
    if e == 0 then 1 else b * Pow(b, e - 1)
  }

  lemma {:induction false} PowAdd(b: int, e: nat, f: nat)
    ensures Pow(b, e + f) == Pow(b, e) * Pow(b, f)
  {
    if e == 0 {
    } else {
      PowAdd(b, e - 1, f);
      assert b * (Pow(b, e - 1) * Pow(b, f)) == b * Pow(b, e - 1) * Pow(b, f);
    }
  }

  lemma {:induction false} PowMul(b: int, e: nat, f: nat)
    ensures e * f >= 0 && Pow(b, e * f) == Pow(Pow(b, e), f)
  {
    if f == 0 {
    } else {
      PowMul(b, e, f - 1);
      assert e * f == e + e * (f - 1);
      PowAdd(b, e, e * (f - 1));
    }
  }

  lemma {:induction false} PowPositive(b: int, e: nat)
    requires b > 0
    ensures Pow(b, e) > 0
  {
    if e != 0 {
      PowPositive(b, e - 1);
    }
  }

  lemma {:induction false} PowOne(e: nat)
    ensures Pow(1, e) == 1
  {
    if e != 0 {
      PowOne(e - 1);
    }
  }

  lemma {:induction false} CongPow(a: int, b: int, e: nat, m: int)
    requires m > 0 && Cong(a, b, m)
    ensures Cong(Pow(a, e), Pow(b, e), m)
  {
    if e == 0 {
      CongRefl(1, m);
    } else {
      CongPow(a, b, e - 1, m);
      CongMul(a, b, Pow(a, e - 1), Pow(b, e - 1), m);
    }
  }

  /** An odd power of -1 is -1. */
  lemma {:induction false} PowMinusOneOdd(t: nat)
    ensures Pow(-1, 2 * t + 1) == -1
  {
    if t != 0 {
      PowMinusOneOdd(t - 1);
      assert Pow(-1, 2 * t + 1) == -1 * (-1 * Pow(-1, 2 * t - 1));
    }
  }

  // ---------- primes ----------

  ghost predicate IsPrime(p: int) {
    p >= 2 && forall d :: 2 <= d < p ==> !Divides(d, p)
  }

  ghost predicate Divides(d: int, n: int)
    requires d > 0
  {
    n % d == 0
  }

  /** Euclid's lemma in the field Z/p: a product of two residues vanishes only if one of them does. */
  lemma {:induction false} ZeroProduct(p: int, a: int, b: int)
    requires IsPrime(p) && 0 < a < p && Cong(a * b, 0, p)
    ensures Cong(b, 0, p)
    decreases a
  {
    if a == 1 {
      assert a * b == b;
    } else {
      var q, r := p / a, p % a;
      assert !Divides(a, p);
      var k := CongWitness(a * b, 0, p);
      assert r * b == p * b - q * (a * b) == (b - q * k) * p by {
        assert r == p - q * a;
        assert q * (a * b) == q * (k * p) == (q * k) * p;
        assert r * b == p * b - (q * a) * b;
        assert (q * a) * b == q * (a * b);
      }
      CongIntro(r * b, 0, p, b - q * k);
      ZeroProduct(p, r, b);
    }
  }

  /** The same for arbitrary integers. */
  lemma ZeroProductGeneral(p: int, a: int, b: int)
    requires IsPrime(p) && Cong(a * b, 0, p)
    ensures Cong(a, 0, p) || Cong(b, 0, p)
  {
    if a % p == 0 {
    } else {
      CongMod(a, p);
      CongRefl(b, p);
      CongMul(a % p, a, b, b, p);
      CongTrans((a % p) * b, a * b, 0, p);
      ZeroProduct(p, a % p, b);
    }
  }

  lemma DividesIntro(d: int, n: int, k: int)
    requires d > 0 && n == k * d
    ensures Divides(d, n)
  {
    ModUnique(n, d, k, 0);
  }

  lemma DividesTrans(e: int, d: int, n: int)
    requires e > 0 && d > 0 && Divides(e, d) && Divides(d, n)
    ensures Divides(e, n)
  {
    var f, c := d / e, n / d;
    assert d == f * e && n == c * d;
    assert c * (f * e) == (c * f) * e;
    DividesIntro(e, n, c * f);
  }

  /** The least divisor of n, searched for from d, is prime and at most the square root of n unless n is prime. */
  lemma {:induction false} LeastDivisor(n: int, d: int) returns (q: int)
    requires n >= 2 && 2 <= d <= n
    requires forall e :: 2 <= e < d ==> !Divides(e, n)
    ensures IsPrime(q) && Divides(q, n) && (q == n || q * q <= n)
    decreases n - d
  {
    if Divides(d, n) {
      q := d;
      forall e | 2 <= e < d
        ensures !Divides(e, d)
      {
        if Divides(e, d) {
          DividesTrans(e, d, n);
        }
      }
      CofactorOfLeastDivisor(n, d);
    } else {
      DividesIntro(n, n, 1);
      q := LeastDivisor(n, d + 1);
    }
  }

  lemma CofactorOfLeastDivisor(n: int, d: int)
    requires n >= 2 && 2 <= d <= n && Divides(d, n)
    requires forall e :: 2 <= e < d ==> !Divides(e, n)
    ensures d == n || d * d <= n
  {
    var c := n / d;
    assert n == d * c;
    assert c <= 0 ==> d * c <= 0;
    if c >= d {
      assert d * (c - d) >= 0;
    } else if c != 1 {
      DividesIntro(c, n, d);
    }
  }

  // ---------- Fermat's theorem ----------

  function Residues(p: int): (s: seq<int>)
    requires p >= 1
    ensures |s| == p - 1
    ensures forall i :: 0 <= i < p - 1 ==> s[i] == i + 1
  {
    seq(p - 1, i => i + 1)
  }

  function Multiples(a: int, p: int): (s: seq<int>)
    requires p >= 1
    ensures |s| == p - 1
    ensures forall i :: 0 <= i < p - 1 ==> s[i] == (a * (i + 1)) % p
  {
    seq(p - 1, i => (a * (i + 1)) % p)
  }

  /** Multiplication by a unit permutes the non-zero residues. */
  lemma MultiplesRearrange(a: int, p: int)
    requires IsPrime(p) && !Cong(a, 0, p)
    ensures multiset(Residues(p)) == multiset(Multiples(a, p))
  {
    var s, t := Residues(p), Multiples(a, p);
    forall i | 0 <= i < |t|
      ensures t[i] in s
    {
      var x := (a * (i + 1)) % p;
      if x == 0 {
        assert Cong(a * (i + 1), 0, p);
        ZeroProductGeneral(p, a, i + 1);
        CongCanonicalZero(i + 1, p);
      }
      assert s[x - 1] == x;
    }
    forall i, j | 0 <= i < j < |t|
      ensures t[i] != t[j]
    {
      if t[i] == t[j] {
        CongSameMod(a * (i + 1), a * (j + 1), p);
        assert a * (i + 1) - a * (j + 1) == a * (i - j);
        assert Cong(a * (i - j), 0, p);
        ZeroProductGeneral(p, a, i - j);
        CongSym(i - j, 0, p);
        CongCanonicalZero(j - i, p);
      }
    }
    Rearranges(s, t);
  }

  lemma CongCanonicalZero(a: int, p: int)
    requires 0 < a < p
    ensures !Cong(a, 0, p) && !Cong(-a, 0, p) && !Cong(0, a, p)
  {
    ModUnique(a, p, 0, a);
    ModUnique(-a, p, -1, p - a);
  }

  lemma MulRearrange(p: int, v: int, a: int, n: int)
    ensures (p * v) * (a * n) == (a * p) * (v * n)
  {
    assert (p * v) * (a * n) == p * (v * (a * n));
    assert v * (a * n) == a * (v * n);
    assert p * (a * (v * n)) == (p * a) * (v * n);
  }

  /** The first n multiples of a multiply to a^n n! modulo p. */
  lemma {:induction false} ProductOfMultiples(a: int, p: int, n: nat)
    requires IsPrime(p) && n < p
    ensures Cong(Product(Multiples(a, p)[..n]), Pow(a, n) * Product(Residues(p)[..n]), p)
  {
    var s, t := Residues(p), Multiples(a, p);
    if n == 0 {
      assert s[..0] == [] && t[..0] == [];
      CongRefl(1, p);
    } else {
      ProductOfMultiples(a, p, n - 1);
      var u, v := Product(t[..n - 1]), Product(s[..n - 1]);
      assert s[..n] == s[..n - 1] + [n] && t[..n] == t[..n - 1] + [(a * n) % p];
      ProductAppend(s[..n - 1], [n]);
      ProductAppend(t[..n - 1], [(a * n) % p]);
      CongMod(a * n, p);
      CongMul(u, Pow(a, n - 1) * v, (a * n) % p, a * n, p);
      MulRearrange(Pow(a, n - 1), v, a, n);
    }
  }

  /** n! is a unit modulo p for n < p. */
  lemma {:induction false} FactorialIsUnit(p: int, n: nat)
    requires IsPrime(p) && n < p
    ensures !Cong(Product(Residues(p)[..n]), 0, p)
  {
    var s := Residues(p);
    if n == 0 {
      assert s[..0] == [];
      CongCanonicalZero(1, p);
    } else {
      FactorialIsUnit(p, n - 1);
      assert s[..n] == s[..n - 1] + [n];
      ProductAppend(s[..n - 1], [n]);
      if Cong(Product(s[..n - 1]) * n, 0, p) {
        ZeroProductGeneral(p, Product(s[..n - 1]), n);
        CongCanonicalZero(n, p);
      }
    }
  }

  lemma LessOne(e: int, f: int)
    ensures e * f - f == (e - 1) * f
  {
  }

  /** Fermat's little theorem. */
  lemma Fermat(a: int, p: int)
    requires IsPrime(p) && !Cong(a, 0, p)
    ensures Cong(Pow(a, p - 1), 1, p)
  {
    var s, t := Residues(p), Multiples(a, p);
    MultiplesRearrange(a, p);
    ProductOfRearrangement(s, t);
    ProductOfMultiples(a, p, p - 1);
    FactorialIsUnit(p, p - 1);
    assert s[..p - 1] == s && t[..p - 1] == t;
    var f, e := Product(s), Pow(a, p - 1);
    LessOne(e, f);
    CongSym(f, e * f, p);
    assert Cong((e - 1) * f, 0, p);
    ZeroProductGeneral(p, e - 1, f);
    assert e - 1 - 0 == e - 1;
  }

  // ---------- Proth's test ----------

  /** n == 2^s * t with t odd. */
  lemma {:induction false} OddPart(n: nat) returns (s: nat, t: nat)
    requires n > 0
    ensures t % 2 == 1 && n == Pow(2, s) * t
  {
    if n % 2 == 1 {
      s, t := 0, n;
    } else {
      s, t := OddPart(n / 2);
      assert n == 2 * (Pow(2, s) * t) == (2 * Pow(2, s)) * t;
      s := s + 1;
    }
  }

  /** With b^(2^j) == -1 and 2^j t == d c for an odd t, b^d is not 1. */
  lemma NoCommonPower(b: int, j: nat, t: nat, d: nat, c: nat, q: int)
    requires q >= 3 && t % 2 == 1 && Pow2(j) * t == d * c
    requires Cong(Pow(b, Pow2(j)), -1, q)
    ensures !Cong(Pow(b, d), 1, q)
  {
    if Cong(Pow(b, d), 1, q) {
      PowMul(b, Pow2(j), t);
      CongPow(Pow(b, Pow2(j)), -1, t, q);
      PowMinusOneOdd(t / 2);
      PowMul(b, d, c);
      CongPow(Pow(b, d), 1, c, q);
      PowOne(c);
      CongSym(Pow(b, d * c), -1, q);
      CongTrans(-1, Pow(b, d * c), 1, q);
      CongCanonicalZero(2, q);
    }
  }

  /** If b^(2^j) is -1 modulo an odd q, then every exponent that sends b to 1 is a multiple of 2^(j+1). */
  lemma OrderIsMultiple(b: int, j: nat, d: nat, q: int)
    requires q >= 3 && d > 0
    requires Cong(Pow(b, Pow2(j)), -1, q) && Cong(Pow(b, d), 1, q)
    ensures Divides(Pow2(j + 1), d)
  {
    var s, t := OddPart(d);
    if s <= j {
      PowAdd(2, s, j - s);
      MulSwap(Pow2(s), Pow2(j - s), t);
      NoCommonPower(b, j, t, d, Pow2(j - s), q);
    } else {
      PowAdd(2, j + 1, s - j - 1);
      MulSwap(Pow2(j + 1), Pow2(s - j - 1), t);
      MulCommute(Pow2(j + 1), t, Pow2(s - j - 1));
      DividesIntro(Pow2(j + 1), d, t * Pow2(s - j - 1));
    }
  }

  lemma MulSwap(a: int, b: int, c: int)
    ensures (a * b) * c == (a * c) * b
  {
  }

  lemma MulCommute(a: int, b: int, c: int)
    ensures (a * b) * c == (b * c) * a
  {
  }

  function Pow2(e: nat): (r: nat)
    ensures r == Pow(2, e) && r > 0
  {
    PowPositive(2, e);
    Pow(2, e)
  }

  /** Every prime factor q of such an n is 1 modulo 2^(j+1), so it is larger than the square root of n. */
  lemma ProthFactor(n: int, h: nat, j: nat, a: int, q: int)
    requires h > 0 && n == h * Pow2(j + 1) + 1 && n >= 3
    requires Cong(Pow(a, h * Pow2(j)), -1, n)
    requires IsPrime(q) && Divides(q, n)
    ensures Cong(q, 1, Pow2(j + 1))
  {
    var c := n / q;
    assert n == q * c;
    CongDivisor(Pow(a, h * Pow2(j)), -1, q, c);
    var b := Pow(a, h);
    PowMul(a, h, Pow2(j));
    assert q != 2 by {
      assert h * Pow2(j + 1) == 2 * (h * Pow2(j));
    }
    if Cong(b, 0, q) {
      CongPow(b, 0, Pow2(j), q);
      assert Pow(0, Pow2(j)) == 0;
      CongSym(Pow(b, Pow2(j)), -1, q);
      CongTrans(-1, Pow(b, Pow2(j)), 0, q);
      CongCanonicalZero(1, q);
    }
    Fermat(b, q);
    OrderIsMultiple(b, j, q - 1, q);
  }

  lemma SquareOfLarge(q: int, m: int, n: int, h: int)
    requires q > 1 && m >= 2 && 0 < h < m && n == h * m + 1 && Cong(q, 1, m)
    ensures q * q > n
  {
    var c := CongWitness(q, 1, m);
    assert c <= 0 ==> c * m <= 0;
    assert (c - 1) * m >= 0;
    assert (q - (m + 1)) * (q + (m + 1)) >= 0;
    assert (m - h) * m >= 0;
  }

  /** Proth's theorem: with h below 2^(j+1) and a^((n-1)/2) == -1, the number n == h 2^(j+1) + 1 is prime. */
  lemma Proth(n: int, h: nat, j: nat, a: int)
    requires 0 < h < Pow2(j + 1) && n == h * Pow2(j + 1) + 1 && n >= 3
    requires Cong(Pow(a, h * Pow2(j)), -1, n)
    ensures IsPrime(n)
  {
    var q := LeastDivisor(n, 2);
    if q != n {
      ProthFactor(n, h, j, a, q);
      SquareOfLarge(q, Pow2(j + 1), n, h);
    }
  }
}
