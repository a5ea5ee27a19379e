/** Domain-local finality (src/finality.rs:65-132) and the withholding bound (src/tickets.rs:548-573), over exact reals. */
module Finality {

  function SumR(s: seq<real>): real {
    if s == [] then 0.0 else SumR(s[..|s| - 1]) + s[|s| - 1]
  }

  function SumOfSquares(s: seq<real>): real {
    if s == [] then 0.0 else SumOfSquares(s[..|s| - 1]) + Square(s[|s| - 1])
  }

  function Square(x: real): real {
    x * x
  }

  /** The sum of (x + c)^2. */
  ghost function ShiftedSquares(s: seq<real>, c: real): real {
    if s == [] then 0.0 else ShiftedSquares(s[..|s| - 1], c) + Square(s[|s| - 1] + c)
  }

  function Mean(focus: seq<real>): real {
    if focus == [] then 0.0 else SumR(focus) / |focus| as real
  }

  function Variance(focus: seq<real>): real {
    if focus == [] then 0.0
    else
      var meanSq := SumOfSquares(focus) / |focus| as real;
      var muSq := Mean(focus) * Mean(focus);
      if meanSq >= muSq then meanSq - muSq else 0.0
  }

  method ComputeMean(focus: seq<real>) returns (mu: real)
    ensures mu == Mean(focus)
  {
    if focus == [] {
      return 0.0;
    }
    var sum, i := 0.0, 0;
    while i < |focus|
      invariant 0 <= i <= |focus| && sum == SumR(focus[..i])
    {
      assert focus[..i + 1][..i] == focus[..i];
      sum := sum + focus[i];
      i := i + 1;
    }
    assert focus[..i] == focus;
    mu := sum / |focus| as real;
  }

  method ComputeVariance(focus: seq<real>) returns (v: real)
    ensures v == Variance(focus)
  {
    if focus == [] {
      return 0.0;
    }
    var mu := ComputeMean(focus);
    var sq, i := 0.0, 0;
    while i < |focus|
      invariant 0 <= i <= |focus| && sq == SumOfSquares(focus[..i])
    {
      assert focus[..i + 1][..i] == focus[..i];
      sq := sq + focus[i] * focus[i];
      i := i + 1;
    }
    assert focus[..i] == focus;
    var meanSq := sq / |focus| as real;
    v := if meanSq >= mu * mu then meanSq - mu * mu else 0.0;
  }

  /** The sqrt-free adaptive threshold test. */
  predicate CrossesThreshold(phi: real, focus: seq<real>, kappa: real) {
    && phi > Mean(focus)
    && (phi - Mean(focus)) * (phi - Mean(focus)) > (kappa * kappa) * Variance(focus)
  }

  function GateDenominator(c: real, kappa: real): real {
    c * (1.0 + kappa)
  }

  function GateNumerator(kappaD: real, gap: real): real {
    (1.0 - kappaD) * gap
  }

  predicate Certified(uncertMass: real, gap: real, kappaD: real, c: real, kappa: real) {
    uncertMass * GateDenominator(c, kappa) < GateNumerator(kappaD, gap)
  }

  /** The cross-multiplied gate is the division it stands for. */
  lemma CertifiedIff(uncertMass: real, gap: real, kappaD: real, c: real, kappa: real)
    requires c * (1.0 + kappa) > 0.0
    ensures Certified(uncertMass, gap, kappaD, c, kappa) <==> uncertMass < ((1.0 - kappaD) * gap) / (c * (1.0 + kappa))
  {
    var numer, denom := (1.0 - kappaD) * gap, c * (1.0 + kappa);
    assert numer == GateNumerator(kappaD, gap) && denom == GateDenominator(c, kappa);
    Division(uncertMass, numer, denom);
  }

  lemma Division(u: real, numer: real, denom: real)
    requires denom > 0.0
    ensures u * denom < numer <==> u < numer / denom
  {
    var bound := numer / denom;
    assert bound * denom == numer;
    if u < bound {
      MulStrict(u, bound, denom);
    } else {
      MulWeak(bound, u, denom);
    }
  }

  lemma MulStrict(a: real, b: real, c: real)
    requires a < b && c > 0.0
    ensures a * c < b * c
  {
  }

  lemma MulWeak(a: real, b: real, c: real)
    requires a <= b && c >= 0.0
    ensures a * c <= b * c
  {
  }

  // ---------- the variance is never negative ----------

  /** The sum of n squares (x + c)^2 in terms of the sum q of the x^2 and the sum t of the x. */
  function Expanded(q: real, t: real, n: nat, c: real): real {
    q + 2.0 * c * t + n as real * (c * c)
  }

  lemma {:induction false} ExpandShifted(s: seq<real>, c: real)
    ensures ShiftedSquares(s, c) == Expanded(SumOfSquares(s), SumR(s), |s|, c)
  {
    if s != [] {
      hide Expanded, Square;
      ExpandShifted(s[..|s| - 1], c);
      ExpandStep(SumOfSquares(s[..|s| - 1]), SumR(s[..|s| - 1]), |s| - 1, s[|s| - 1], c);
    }
  }

  lemma ExpandStep(q: real, t: real, n: nat, x: real, c: real)
    ensures Expanded(q, t, n, c) + Square(x + c) == Expanded(q + Square(x), t + x, n + 1, c)
  {
    assert (x + c) * (x + c) == x * x + 2.0 * c * x + c * c;
    assert 2.0 * c * (t + x) == 2.0 * c * t + 2.0 * c * x;
    assert (n + 1) as real * (c * c) == n as real * (c * c) + c * c;
  }

  lemma {:induction false} ShiftedNonNegative(s: seq<real>, c: real)
    ensures ShiftedSquares(s, c) >= 0.0
  {
    hide Square;
    if s != [] {
      ShiftedNonNegative(s[..|s| - 1], c);
      SquareNonNegative(s[|s| - 1] + c);
    }
  }

  lemma SquareNonNegative(x: real)
    ensures Square(x) >= 0.0
  {
  }

  /** E[x^2] - mean^2, before the clamp. */
  function Spread(focus: seq<real>): real
    requires focus != []
  {
    SumOfSquares(focus) / |focus| as real - Square(Mean(focus))
  }

  /** Around any shift c of the mean, the squares add up to n (spread + c^2). */
  lemma SpreadAround(focus: seq<real>, c: real)
    requires focus != []
    ensures ShiftedSquares(focus, c - Mean(focus)) == Copies(|focus|, Spread(focus) + Square(c))
  {
    hide SumR, SumOfSquares, ShiftedSquares, Expanded, Copies, Square, Mean;
    var mu := Mean(focus);
    ExpandShifted(focus, c - mu);
    MeanTimesCount(focus);
    SpreadAlgebra(|focus|, SumOfSquares(focus), SumR(focus), mu, c);
  }

  lemma SpreadAlgebra(size: nat, q: real, t: real, mu: real, c: real)
    requires size > 0 && t == size as real * mu
    ensures Expanded(q, t, size, c - mu) == Copies(size, (q / size as real - Square(mu)) + Square(c))
  {
    var n := size as real;
    var e := q / n;
    assert n * e == q;
    assert (c - mu) * (c - mu) == c * c - 2.0 * (c * mu) + mu * mu;
    assert 2.0 * (c - mu) * (n * mu) == n * (2.0 * (c * mu) - 2.0 * (mu * mu)) by {
      assert (c - mu) * (n * mu) == n * ((c - mu) * mu);
      assert (c - mu) * mu == c * mu - mu * mu;
    }
  }

  /** The clamp never binds: in exact arithmetic the variance is the mean squared distance from the mean. */
  lemma VarianceIsSpread(focus: seq<real>)
    requires focus != []
    ensures Variance(focus) == Spread(focus) >= 0.0
    ensures ShiftedSquares(focus, 0.0 - Mean(focus)) == |focus| as real * Variance(focus)
  {
    hide SumOfSquares, ShiftedSquares, Mean, Square, Copies;
    SpreadAround(focus, 0.0);
    ShiftedNonNegative(focus, 0.0 - Mean(focus));
    SpreadSign(|focus|, Spread(focus));
    assert Square(Mean(focus)) == Mean(focus) * Mean(focus) by { SquareIsProduct(Mean(focus)); }
  }

  lemma SquareIsProduct(x: real)
    ensures Square(x) == x * x
  {
  }

  lemma SpreadSign(n: nat, v: real)
    requires n > 0 && Copies(n, v + Square(0.0)) >= 0.0
    ensures v >= 0.0 && Copies(n, v + Square(0.0)) == n as real * v
  {
    assert Square(0.0) == 0.0;
    NonNegativeFactor(n as real, v);
  }

  lemma NonNegativeFactor(n: real, v: real)
    requires n > 0.0 && n * v >= 0.0
    ensures v >= 0.0
  {
    assert v * n == n * v;
    if v < 0.0 {
      MulStrict(v, 0.0, n);
    }
  }

  // ---------- the squared test is the threshold ----------

  /** phi > mu + kappa sigma, without the square root. */
  lemma SquaredTest(phi: real, focus: seq<real>, kappa: real, sigma: real)
    requires kappa >= 0.0 && sigma >= 0.0 && sigma * sigma == Variance(focus)
    ensures CrossesThreshold(phi, focus, kappa) <==> phi > Mean(focus) + kappa * sigma
  {
    var e, b := phi - Mean(focus), kappa * sigma;
    assert b >= 0.0;
    assert b * b == (kappa * kappa) * (sigma * sigma);
    if e > 0.0 {
      SquaresCompare(e, b);
    }
  }

  lemma SquaresCompare(e: real, b: real)
    requires e >= 0.0 && b >= 0.0
    ensures Square(e) > Square(b) <==> e > b
  {
    hide Square, Times;
    DifferenceOfSquares(e, b);
    ProductSign(e - b, e + b);
  }

  function Times(a: real, b: real): real {
    a * b
  }

  lemma DifferenceOfSquares(e: real, b: real)
    ensures Square(e) - Square(b) == Times(e - b, e + b)
  {
    assert e * b == b * e;
    assert e * (e + b) == e * e + e * b;
    assert b * (e + b) == b * e + b * b;
    assert (e - b) * (e + b) == e * (e + b) - b * (e + b);
  }

  lemma ProductSign(d: real, s: real)
    requires s >= 0.0
    ensures d > 0.0 && s > 0.0 ==> Times(d, s) > 0.0
    ensures d <= 0.0 ==> Times(d, s) <= 0.0
  {
  }

  // ---------- how many can cross ----------

  /** d copies of x. */
  function Copies(d: nat, x: real): real {
    d as real * x
  }

  lemma CopiesStep(d: nat, x: real)
    ensures Copies(0, x) == 0.0 && Copies(d + 1, x) == Copies(d, x) + x
  {
    assert (d as real + 1.0) * x == d as real * x + x;
  }

  function CrossingCount(members: seq<real>, focus: seq<real>, kappa: real): nat {
    if members == [] then 0
    else CrossingCount(members[..|members| - 1], focus, kappa)
         + if CrossesThreshold(members[|members| - 1], focus, kappa) then 1 else 0
  }

  /** The least distance above the mean at which a member of a non-empty crossing group stands. */
  lemma {:induction false} LeastExcess(members: seq<real>, focus: seq<real>, kappa: real) returns (t: real)
    requires CrossingCount(members, focus, kappa) > 0
    ensures t > 0.0 && t * t > (kappa * kappa) * Variance(focus)
    ensures forall i :: 0 <= i < |members| && CrossesThreshold(members[i], focus, kappa) ==> members[i] - Mean(focus) >= t
  {
    var rest, x := members[..|members| - 1], members[|members| - 1];
    if CrossingCount(rest, focus, kappa) > 0 {
      t := LeastExcess(rest, focus, kappa);
      if CrossesThreshold(x, focus, kappa) && x - Mean(focus) < t {
        t := x - Mean(focus);
      }
    } else {
      t := x - Mean(focus);
      NoneCrosses(rest, focus, kappa);
    }
    forall i | 0 <= i < |members| && CrossesThreshold(members[i], focus, kappa)
      ensures members[i] - Mean(focus) >= t
    {
      if i < |members| - 1 {
        assert members[i] == rest[i];
      }
    }
  }

  lemma {:induction false} NoneCrosses(members: seq<real>, focus: seq<real>, kappa: real)
    requires CrossingCount(members, focus, kappa) == 0
    ensures forall i :: 0 <= i < |members| ==> !CrossesThreshold(members[i], focus, kappa)
  {
    if members != [] {
      var rest := members[..|members| - 1];
      NoneCrosses(rest, focus, kappa);
      assert forall i :: 0 <= i < |rest| ==> members[i] == rest[i];
    }
  }

  /** Each crossing member contributes at least (t + c)^2 to the squares around the mean shifted down by c. */
  lemma {:induction false} CrossingMass(members: seq<real>, focus: seq<real>, kappa: real, t: real, c: real)
    requires t > 0.0 && c >= 0.0
    requires forall i :: 0 <= i < |members| && CrossesThreshold(members[i], focus, kappa) ==> members[i] - Mean(focus) >= t
    ensures ShiftedSquares(members, c - Mean(focus)) >= Copies(CrossingCount(members, focus, kappa), Square(t + c))
  {
    CopiesStep(0, Square(t + c));
    if members != [] {
      var rest, x := members[..|members| - 1], members[|members| - 1];
      assert forall i :: 0 <= i < |rest| ==> rest[i] == members[i];
      CrossingMass(rest, focus, kappa, t, c);
      hide CrossesThreshold, Mean, Copies, Square;
      MassStep(ShiftedSquares(rest, c - Mean(focus)), CrossingCount(rest, focus, kappa), x + (c - Mean(focus)), t + c);
    }
  }

  lemma MassStep(total: real, m: nat, d: real, b: real)
    requires b >= 0.0 && total >= Copies(m, Square(b))
    ensures total + Square(d) >= Copies(m, Square(b))
    ensures d >= b ==> total + Square(d) >= Copies(m + 1, Square(b))
  {
    hide Copies;
    SquareNonNegative(d);
    CopiesStep(m, Square(b));
    if d >= b {
      SquaresCompare(d, b);
    }
  }

  /** Fewer than |D| / (1 + kappa^2) members of a non-empty domain cross the threshold. */
  lemma FewCross(focus: seq<real>, kappa: real)
    requires focus != []
    ensures CrossingCount(focus, focus, kappa) as real * (1.0 + kappa * kappa) < |focus| as real
  {
    hide CrossingCount, Copies;
    CopiesFewer(focus, kappa);
    SquareIsProduct(kappa);
    CopiesIsProduct(CrossingCount(focus, focus, kappa), 1.0 + kappa * kappa);
  }

  lemma CopiesIsProduct(d: nat, x: real)
    ensures Copies(d, x) == d as real * x
  {
  }

  lemma CopiesFewer(focus: seq<real>, kappa: real)
    requires focus != []
    ensures Copies(CrossingCount(focus, focus, kappa), 1.0 + Square(kappa)) < |focus| as real
  {
    hide CrossingCount, CrossesThreshold, Mean, Variance, SumOfSquares, ShiftedSquares, Square, Copies, Spread;
    var m := CrossingCount(focus, focus, kappa);
    if m == 0 {
      CopiesStep(0, 1.0 + Square(kappa));
    } else {
      var t := LeastExcess(focus, focus, kappa);
      VarianceIsSpread(focus);
      var v := Variance(focus);
      var c := Shift(v, t);
      CrossingMass(focus, focus, kappa, t, c);
      SpreadAround(focus, c);
      CantelliAlgebra(|focus|, m, v, t, c, kappa);
    }
  }

  lemma Shift(v: real, t: real) returns (c: real)
    requires v >= 0.0 && t > 0.0
    ensures c >= 0.0 && c * t == v
  {
    c := v / t;
    assert t * c == v;
    NonNegativeFactor(t, c);
  }

  lemma CantelliAlgebra(size: nat, count: nat, v: real, t: real, c: real, kappa: real)
    requires size > 0 && count > 0 && v >= 0.0 && t > 0.0 && c >= 0.0 && c * t == v && t * t > (kappa * kappa) * v
    requires Copies(size, v + Square(c)) >= Copies(count, Square(t + c))
    ensures Copies(count, 1.0 + Square(kappa)) < size as real
  {
    CantelliStep(size as real, count as real, v, t, c, kappa);
  }

  lemma CantelliStep(n: real, m: real, v: real, t: real, c: real, kappa: real)
    requires n > 0.0 && m > 0.0 && v >= 0.0 && t > 0.0 && c >= 0.0 && c * t == v && t * t > (kappa * kappa) * v
    requires n * (v + c * c) >= m * ((t + c) * (t + c))
    ensures m * (1.0 + kappa * kappa) < n
  {
    // v + c^2 == c (t + c), so n c >= m (t + c)
    var u := t + c;
    assert v + c * c == c * u by { assert c * u == c * t + c * c; }
    assert (n * c) * u >= (m * u) * u by {
      assert n * (c * u) == (n * c) * u;
      assert m * (u * u) == (m * u) * u;
    }
    CancelPositive(m * u, n * c, u);
    assert n * c >= m * u;
    // multiplying by t: n v >= m (t^2 + v) > m v (1 + kappa^2)
    MulWeak(m * u, n * c, t);
    assert (n * c) * t == n * v by { assert (n * c) * t == n * (c * t); }
    assert (m * u) * t == m * (t * t + v) by {
      assert (m * u) * t == m * (u * t);
      assert u * t == t * t + c * t;
    }
    var k := 1.0 + kappa * kappa;
    assert t * t + v > k * v by { assert k * v == v + (kappa * kappa) * v; }
    MulStrict(k * v, t * t + v, m);
    assert n * v > (m * k) * v by { assert (k * v) * m == (m * k) * v; }
    if n <= m * k {
      MulWeak(n, m * k, v);
    }
  }

  lemma CancelPositive(a: real, b: real, c: real)
    requires a * c <= b * c && c > 0.0
    ensures a <= b
  {
    if a > b {
      MulStrict(b, a, c);
    }
  }

  /** At kappa >= 1 fewer than half of the domain crosses. */
  lemma FewerThanHalfCross(focus: seq<real>, kappa: real)
    requires focus != [] && kappa >= 1.0
    ensures 2 * CrossingCount(focus, focus, kappa) < |focus|
  {
    FewCross(focus, kappa);
    HalfBound(CrossingCount(focus, focus, kappa), |focus|, kappa);
  }

  lemma HalfBound(m: nat, n: nat, kappa: real)
    requires kappa >= 1.0 && m as real * (1.0 + kappa * kappa) < n as real
    ensures 2 * m < n
  {
    MulWeak(1.0, kappa, kappa);
    MulWeak(2.0, 1.0 + kappa * kappa, m as real);
    assert (1.0 + kappa * kappa) * m as real == m as real * (1.0 + kappa * kappa);
    assert (2 * m) as real == 2.0 * m as real;
  }

  // ---------- withholding ----------

  /** The samples that are published when those at the positions in `dropped` are withheld. */
  ghost function Published(pool: seq<real>, dropped: set<nat>): seq<real> {
    if pool == [] then []
    else
      var rest := Published(pool[..|pool| - 1], dropped);
      if |pool| - 1 in dropped then rest else rest + [pool[|pool| - 1]]
  }

  function WithholdingBiasBound(range: real, q: real): real
    requires q < 1.0
  {
    range * (q / (1.0 - q))
  }

  predicate ForfeitDeters(ticketSubsidy: real, range: real, q: real, clusterValue: real)
    requires q < 1.0
  {
    ticketSubsidy > WithholdingBiasBound(range, q) * clusterValue
  }

  lemma SumSnoc(s: seq<real>, x: real)
    ensures SumR(s + [x]) == SumR(s) + x
  {
    assert (s + [x])[..|s|] == s;
  }

  /** The positions below m that are dropped. */
  ghost function DroppedBelow(dropped: set<nat>, m: nat): nat {
    if m == 0 then 0 else DroppedBelow(dropped, m - 1) + if m - 1 in dropped then 1 else 0
  }

  lemma {:induction false} DroppedBelowIsSize(dropped: set<nat>, m: nat)
    requires forall i :: i in dropped ==> i < m
    ensures DroppedBelow(dropped, m) == |dropped|
  {
    if m == 0 {
      assert dropped == {};
    } else if m - 1 in dropped {
      var rest := dropped - {m - 1};
      DroppedBelowIsSize(rest, m - 1);
      DroppedBelowAgree(dropped, rest, m - 1);
    } else {
      DroppedBelowIsSize(dropped, m - 1);
    }
  }

  lemma {:induction false} DroppedBelowAgree(a: set<nat>, b: set<nat>, m: nat)
    requires forall i: nat :: i < m ==> (i in a <==> i in b)
    ensures DroppedBelow(a, m) == DroppedBelow(b, m)
  {
    if m != 0 {
      DroppedBelowAgree(a, b, m - 1);
    }
  }

  lemma {:induction false} PublishedCount(pool: seq<real>, dropped: set<nat>)
    ensures |Published(pool, dropped)| == |pool| - DroppedBelow(dropped, |pool|)
  {
    if pool != [] {
      PublishedCount(pool[..|pool| - 1], dropped);
    }
  }

  /** The total of the samples withheld. */
  ghost function Withheld(pool: seq<real>, dropped: set<nat>): real {
    if pool == [] then 0.0
    else Withheld(pool[..|pool| - 1], dropped) + if |pool| - 1 in dropped then pool[|pool| - 1] else 0.0
  }

  lemma {:induction false} PublishedSum(pool: seq<real>, dropped: set<nat>)
    ensures SumR(Published(pool, dropped)) == SumR(pool) - Withheld(pool, dropped)
  {
    if pool != [] {
      PublishedSum(pool[..|pool| - 1], dropped);
      SumSnoc(Published(pool[..|pool| - 1], dropped), pool[|pool| - 1]);
    }
  }

  /** The withheld total lies between the count at the least sample and the count at the mean. */
  lemma {:induction false} WithheldBounds(pool: seq<real>, dropped: set<nat>, mu: real, lo: real)
    requires forall i :: 0 <= i < |pool| ==> pool[i] >= lo
    requires forall i :: 0 <= i < |pool| && i in dropped ==> pool[i] <= mu
    ensures Copies(DroppedBelow(dropped, |pool|), lo) <= Withheld(pool, dropped) <= Copies(DroppedBelow(dropped, |pool|), mu)
  {
    hide Copies;
    CopiesStep(0, lo);
    CopiesStep(0, mu);
    if pool != [] {
      var rest := pool[..|pool| - 1];
      assert forall i :: 0 <= i < |rest| ==> rest[i] == pool[i];
      WithheldBounds(rest, dropped, mu, lo);
      var d := DroppedBelow(dropped, |rest|);
      if |rest| in dropped {
        CopiesStep(d, lo);
        CopiesStep(d, mu);
      } else {
        assert DroppedBelow(dropped, |pool|) == d;
      }
    }
  }

  /** Withholding samples that are not above the mean raises the mean, by no more than the bound for its share of the pool. */
  lemma WithholdingBias(pool: seq<real>, dropped: set<nat>, lo: real, q: real)
    requires pool != [] && 0.0 <= q < 1.0
    requires forall i :: i in dropped ==> i < |pool|
    requires |dropped| as real <= q * |pool| as real
    requires forall i :: 0 <= i < |pool| ==> pool[i] >= lo
    requires forall i :: 0 <= i < |pool| && i in dropped ==> pool[i] <= Mean(pool)
    ensures Published(pool, dropped) != []
    ensures 0.0 <= Mean(Published(pool, dropped)) - Mean(pool) <= WithholdingBiasBound(Mean(pool) - lo, q)
  {
    hide SumR, Withheld, Published, DroppedBelow, Mean, WithholdingBiasBound;
    var t, d, mu := |pool| as real, |dropped| as real, Mean(pool);
    DroppedBelowIsSize(dropped, |pool|);
    PublishedCount(pool, dropped);
    PublishedSum(pool, dropped);
    WithheldBounds(pool, dropped, mu, lo);
    MeanAtLeast(pool, lo);
    MeanTimesCount(pool);
    SmallerShare(t, d, q);
    var published := Published(pool, dropped);
    MeanTimesCount(published);
    BiasAlgebra(t, d, mu, lo, q, SumR(published), Mean(published));
  }

  /** No smaller bound holds: withholding a share q of the pool, all of it least samples, gains exactly as much. */
  lemma BoundIsReached(pool: seq<real>, dropped: set<nat>, lo: real, q: real)
    requires pool != [] && 0.0 <= q < 1.0
    requires forall i :: i in dropped ==> i < |pool| && pool[i] == lo
    requires |dropped| as real == q * |pool| as real
    requires forall i :: 0 <= i < |pool| ==> pool[i] >= lo
    ensures Published(pool, dropped) != []
    ensures Mean(Published(pool, dropped)) - Mean(pool) == WithholdingBiasBound(Mean(pool) - lo, q)
  {
    hide SumR, Withheld, Published, DroppedBelow, Mean, WithholdingBiasBound;
    var t, d, mu := |pool| as real, |dropped| as real, Mean(pool);
    DroppedBelowIsSize(dropped, |pool|);
    PublishedCount(pool, dropped);
    PublishedSum(pool, dropped);
    WithheldBounds(pool, dropped, lo, lo);
    MeanTimesCount(pool);
    SmallerShare(t, d, q);
    var published := Published(pool, dropped);
    MeanTimesCount(published);
    ReachedAlgebra(t, d, mu, lo, q, SumR(published), Mean(published));
  }

  lemma ReachedAlgebra(t: real, d: real, mu: real, lo: real, q: real, s: real, mean': real)
    requires t > d >= 0.0 && 0.0 <= q < 1.0 && d == q * t
    requires s == t * mu - d * lo && mean' * (t - d) == s
    ensures mean' - mu == WithholdingBiasBound(mu - lo, q)
  {
    var left, w, r := t - d, q / (1.0 - q), mu - lo;
    assert w * (1.0 - q) == q;
    assert left == (1.0 - q) * t;
    assert w * left == (w * (1.0 - q)) * t == d;
    var gain, bound := mean' - mu, r * w;
    assert gain * left == mean' * left - mu * left;
    assert mu * left == t * mu - mu * d;
    assert r * d == mu * d - lo * d;
    assert bound * left == r * (w * left) == r * d == gain * left;
    CancelPositive(gain, bound, left);
    CancelPositive(bound, gain, left);
  }

  lemma SmallerShare(t: real, d: real, q: real)
    requires t > 0.0 && 0.0 <= q < 1.0 && d <= q * t
    ensures d < t
  {
    MulStrict(q, 1.0, t);
  }

  lemma MeanTimesCount(pool: seq<real>)
    requires pool != []
    ensures SumR(pool) == |pool| as real * Mean(pool) == Mean(pool) * |pool| as real
  {
  }

  lemma {:induction false} MeanAtLeast(pool: seq<real>, lo: real)
    requires pool != [] && forall i :: 0 <= i < |pool| ==> pool[i] >= lo
    ensures Mean(pool) >= lo
  {
    SumAtLeast(pool, lo);
    var t := |pool| as real;
    assert Mean(pool) * t == SumR(pool);
    CancelPositive(lo, Mean(pool), t);
  }

  lemma {:induction false} SumAtLeast(pool: seq<real>, lo: real)
    requires forall i :: 0 <= i < |pool| ==> pool[i] >= lo
    ensures lo * |pool| as real <= SumR(pool)
  {
    if pool != [] {
      var rest := pool[..|pool| - 1];
      assert forall i :: 0 <= i < |rest| ==> rest[i] == pool[i];
      SumAtLeast(rest, lo);
      assert lo * |pool| as real == lo * |rest| as real + lo;
    }
  }

  lemma BiasAlgebra(t: real, d: real, mu: real, lo: real, q: real, s: real, mean': real)
    requires t > d >= 0.0 && 0.0 <= q < 1.0 && d <= q * t && mu >= lo
    requires d * lo <= t * mu - s <= d * mu && mean' * (t - d) == s
    ensures 0.0 <= mean' - mu <= WithholdingBiasBound(mu - lo, q)
  {
    var left, w := t - d, q / (1.0 - q);
    assert mu * left == t * mu - mu * d;
    CancelPositive(mu, mean', left);
    // (mean' - mu) left <= (mu - lo) d, and d <= w left
    var g, r := mean' - mu, mu - lo;
    assert g * left == mean' * left - mu * left;
    assert r * d == mu * d - lo * d;
    assert g * left <= r * d;
    ShareBound(t, d, q, w);
    MulWeak(d, w * left, r);
    ScaleBound(g, r, w, d, left);
  }

  lemma ShareBound(t: real, d: real, q: real, w: real)
    requires t > d >= 0.0 && 0.0 <= q < 1.0 && d <= q * t && w * (1.0 - q) == q
    ensures d <= w * (t - d)
  {
    var left := t - d;
    assert d * (1.0 - q) == d - q * d;
    assert q * left == q * t - q * d;
    assert (w * left) * (1.0 - q) == (w * (1.0 - q)) * left == q * left;
    CancelPositive(d, w * left, 1.0 - q);
  }

  lemma ScaleBound(g: real, r: real, w: real, d: real, left: real)
    requires left > 0.0 && g * left <= r * d && d * r <= (w * left) * r
    ensures g <= r * w
  {
    assert (w * left) * r == (r * w) * left;
    assert d * r == r * d;
    CancelPositive(g, r * w, left);
  }

  /** An accepted forfeit costs more than withholding can gain. */
  lemma ForfeitExceedsGain(pool: seq<real>, dropped: set<nat>, lo: real, q: real, subsidy: real, clusterValue: real)
    requires pool != [] && 0.0 <= q < 1.0 && clusterValue >= 0.0
    requires forall i :: i in dropped ==> i < |pool|
    requires |dropped| as real <= q * |pool| as real
    requires forall i :: 0 <= i < |pool| ==> pool[i] >= lo
    requires forall i :: 0 <= i < |pool| && i in dropped ==> pool[i] <= Mean(pool)
    requires ForfeitDeters(subsidy, Mean(pool) - lo, q, clusterValue)
    ensures subsidy > (Mean(Published(pool, dropped)) - Mean(pool)) * clusterValue
  {
    WithholdingBias(pool, dropped, lo, q);
    MulWeak(Mean(Published(pool, dropped)) - Mean(pool), WithholdingBiasBound(Mean(pool) - lo, q), clusterValue);
  }
}
