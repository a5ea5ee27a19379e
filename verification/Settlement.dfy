/** The cooperative game over a cluster's contributions (src/settlement.rs:59-102, src/settlement.rs:157-173): marginals
    along an ordering, their sum over all orderings, and the axioms that make that sum the Shapley division.
    The value of a coalition is an arbitrary function of the set of its members. */
module Settlement {
  import opened Sequences
  import opened Numbers
  import opened Goldilocks
  import opened Permutations
  import Bytes

  type Game = set<nat> -> Element

  ghost predicate Grounded(v: Game) {
    v({}) == 0
  }

  /** The value the running total holds before position p: nothing at the start, then the value of the prefix. */
  function ValueBefore(v: Game, order: seq<nat>, p: nat): int
    requires p <= |order|
  {
    if p == 0 then 0 else v(Elements(order[..p]))
  }

  /** What the contributor at position p adds, as an integer. */
  function MarginalAt(v: Game, order: seq<nat>, p: nat): int
    requires p < |order|
  {
    ValueBefore(v, order, p + 1) - ValueBefore(v, order, p)
  }

  function PositionOf(order: seq<nat>, i: nat): (p: nat)
    requires i in order
    ensures p < |order| && order[p] == i
  {
    if order[0] == i then 0 else 1 + PositionOf(order[1..], i)
  }

  lemma PositionIs(order: seq<nat>, p: nat)
    requires p < |order| && NoDup(order)
    ensures PositionOf(order, order[p]) == p
  {
  }

  function Marginal(v: Game, order: seq<nat>, i: nat): int {
    if i in order then MarginalAt(v, order, PositionOf(order, i)) else 0
  }

  /** The marginals of one ordering, by contributor. */
  ghost function ByContributor(v: Game, order: seq<nat>): nat -> int {
    (i: nat) => Marginal(v, order, i)
  }

  /** The marginals of one contributor, by ordering. */
  ghost function ByOrdering(v: Game, i: nat): seq<nat> -> int {
    (o: seq<nat>) => Marginal(v, o, i)
  }

  /** What one ordering distributes to n contributors. */
  ghost function Distributed(v: Game, n: nat): seq<nat> -> int {
    (o: seq<nat>) => SumBy(ByContributor(v, o), Upto(n))
  }

  /** The accumulated marginals over a list of orderings, by contributor. */
  ghost function AccumulatedBy(v: Game, orders: seq<seq<nat>>): nat -> int {
    (i: nat) => Accumulated(v, orders, i)
  }

  // ---------- one ordering ----------

  predicate InRange(order: seq<nat>, n: nat) {
    forall p :: 0 <= p < |order| ==> order[p] < n
  }

  lemma {:induction false} Telescopes(v: Game, order: seq<nat>, m: nat)
    requires m <= |order| && NoDup(order)
    ensures SumBy(ByContributor(v, order), order[..m]) == ValueBefore(v, order, m)
  {
    var f := ByContributor(v, order);
    if m == 0 {
    } else {
      Telescopes(v, order, m - 1);
      assert order[..m] == order[..m - 1] + [order[m - 1]];
      SumByAppend(f, order[..m - 1], [order[m - 1]]);
      SumBySingle(f, order[m - 1]);
      PositionIs(order, m - 1);
    }
  }

  lemma SumBySingle<T>(f: T -> int, x: T)
    ensures SumBy(f, [x]) == f(x)
  {
    assert [x][1..] == [];
  }

  lemma PermutationFacts(order: seq<nat>, n: nat)
    requires IsPermutation(order, n)
    ensures |order| == n && NoDup(order) && forall i :: i in order <==> 0 <= i < n
    ensures Elements(order) == Elements(Upto(n)) && InRange(order, n)
  {
    RearrangedNoDup(Upto(n), order);
    forall i: nat
      ensures i in order <==> i < n
    {
      assert i in multiset(order) <==> i in multiset(Upto(n));
      if i < n { assert Upto(n)[i] == i; }
    }
    forall x: nat
      ensures x in Elements(order) <==> x in Elements(Upto(n))
    {
      assert x in order <==> x < n;
      if x < n { assert Upto(n)[x] == x; }
    }
    assert forall p :: 0 <= p < |order| ==> order[p] in order;
  }

  /** Along any ordering the marginals add up to the value of everyone. */
  lemma MarginalsAddUp(v: Game, order: seq<nat>, n: nat)
    requires IsPermutation(order, n) && n > 0
    ensures SumBy(ByContributor(v, order), Upto(n)) == v(Elements(Upto(n)))
  {
    PermutationFacts(order, n);
    Telescopes(v, order, n);
    assert order[..n] == order;
    SumByRearrangement(ByContributor(v, order), order, Upto(n));
  }

  method Marginals(v: Game, n: nat, order: seq<nat>) returns (out: seq<Element>)
    requires NoDup(order) && InRange(order, n)
    ensures |out| == n && forall i :: 0 <= i < n ==> out[i] == Reduce(Marginal(v, order, i))
  {
    var result := new Element[n](_ => 0);
    var prefix: seq<nat> := [];
    var prev: Element := 0;
    var p := 0;
    while p < |order|
      invariant 0 <= p <= |order| && prefix == order[..p]
      invariant prev == ValueBefore(v, order, p)
      invariant forall i :: 0 <= i < n ==> result[i] == if i in order[..p] then Reduce(Marginal(v, order, i)) else 0
    {
      var i := order[p];
      prefix := prefix + [i];
      assert order[..p + 1] == order[..p] + [i];
      var value := v(Elements(prefix));
      PositionIs(order, p);
      result[i] := Sub(value, prev);
      prev := value;
      p := p + 1;
    }
    assert order[..p] == order;
    out := result[..];
  }

  // ---------- all orderings ----------

  /** The accumulated marginal of contributor i over a list of orderings, as an integer. */
  ghost function Accumulated(v: Game, orders: seq<seq<nat>>, i: nat): int {
    SumBy(ByOrdering(v, i), orders)
  }

  /** n! times the Shapley value of contributor i. */
  ghost function ShapleySum(v: Game, n: nat, i: nat): int {
    Accumulated(v, All(n), i)
  }

  /** Each contributor's marginal in an ordering, in the field. */
  ghost function MarginalList(v: Game, n: nat, order: seq<nat>): (m: seq<Element>)
    ensures |m| == n && forall i :: 0 <= i < n ==> m[i] == Reduce(Marginal(v, order, i))
  {
    seq(n, i requires 0 <= i < n => Reduce(Marginal(v, order, i)))
  }

  method Accumulate(v: Game, n: nat, orders: seq<seq<nat>>) returns (acc: seq<Element>)
    requires forall o :: o in orders ==> IsPermutation(o, n)
    ensures |acc| == n && forall i :: 0 <= i < n ==> acc[i] == Reduce(Accumulated(v, orders, i))
  {
    var a := new Element[n](_ => 0);
    var t := 0;
    while t < |orders|
      invariant 0 <= t <= |orders|
      invariant forall i :: 0 <= i < n ==> a[i] == Reduce(Accumulated(v, orders[..t], i))
    {
      PermutationFacts(orders[t], n);
      var m := Marginals(v, n, orders[t]);
      AddInto(a, m, v, orders, t);
      t := t + 1;
    }
    assert orders[..t] == orders;
    acc := a[..];
  }

  method AddInto(a: array<Element>, m: seq<Element>, ghost v: Game, ghost orders: seq<seq<nat>>, ghost t: nat)
    requires |m| == a.Length && t < |orders|
    requires forall i :: 0 <= i < a.Length ==> m[i] == Reduce(Marginal(v, orders[t], i))
    requires forall i :: 0 <= i < a.Length ==> a[i] == Reduce(Accumulated(v, orders[..t], i))
    modifies a
    ensures forall i :: 0 <= i < a.Length ==> a[i] == Reduce(Accumulated(v, orders[..t + 1], i))
  {
    hide Reduce, Accumulated, Marginal;
    var i := 0;
    while i < a.Length
      invariant 0 <= i <= a.Length
      invariant forall j :: 0 <= j < i ==> a[j] == Reduce(Accumulated(v, orders[..t + 1], j))
      invariant forall j :: i <= j < a.Length ==> a[j] == Reduce(Accumulated(v, orders[..t], j))
    {
      AccumulatedStep(v, orders, t, i);
      AddReduce(Accumulated(v, orders[..t], i), Marginal(v, orders[t], i));
      a[i] := Add(a[i], m[i]);
      i := i + 1;
    }
  }

  lemma AccumulatedStep(v: Game, orders: seq<seq<nat>>, t: nat, i: nat)
    requires t < |orders|
    ensures Accumulated(v, orders[..t + 1], i) == Accumulated(v, orders[..t], i) + Marginal(v, orders[t], i)
  {
    var f := ByOrdering(v, i);
    assert orders[..t + 1] == orders[..t] + [orders[t]];
    SumByAppend(f, orders[..t], [orders[t]]);
    SumBySingle(f, orders[t]);
  }

  /** The numerators of the exact division: every ordering enumerated, its marginals added. */
  method ShapleyNumerators(v: Game, n: nat) returns (acc: seq<Element>, count: nat)
    ensures |acc| == n && forall i :: 0 <= i < n ==> acc[i] == Reduce(ShapleySum(v, n, i))
    ensures n > 0 ==> count == Factorial(n)
    ensures n > 0 ==> Cong(Sum(acc), Factorial(n) * v(Elements(Upto(n))), P)
  {
    AllPermutationsOnce(n);
    var orders := Enumerate(n);
    acc := Accumulate(v, n, orders);
    count := |orders|;
    if n > 0 {
      Efficiency(v, n);
      SumOfReduced(acc, AccumulatedBy(v, All(n)), n);
      assert acc[..n] == acc;
    }
  }

  lemma {:induction false} SumOfReduced(acc: seq<Element>, f: nat -> int, m: nat)
    requires m <= |acc| && forall i :: 0 <= i < m ==> acc[i] == Reduce(f(i))
    ensures Cong(Sum(acc[..m]), SumBy(f, Upto(m)), P)
  {
    if m == 0 {
      CongRefl(0, P);
    } else {
      SumOfReduced(acc, f, m - 1);
      assert acc[..m] == acc[..m - 1] + [acc[m - 1]];
      SumAppend(acc[..m - 1], [acc[m - 1]]);
      assert Sum([acc[m - 1]]) == acc[m - 1] + Sum([acc[m - 1]][1..]);
      var last: nat := m - 1;
      assert Upto(m) == Upto(last) + [last];
      SumByAppend<nat>(f, Upto(last), [last]);
      SumBySingle<nat>(f, last);
      CongMod(f(m - 1), P);
      CongAdd(Sum(acc[..m - 1]), SumBy(f, Upto(m - 1)), acc[m - 1], f(m - 1), P);
    }
  }

  /** The orderings of the nonces 0 to samples - 1. */
  ghost function DrawnOrders(n: nat, samples: nat, beacon: seq<Bytes.Byte>, h: DigestHash): (orders: seq<seq<nat>>)
    requires Digests32(h)
    ensures |orders| == samples && forall s :: 0 <= s < samples ==> orders[s] == OrderingOf(n, beacon, s, h)
    ensures forall o :: o in orders ==> IsPermutation(o, n)
  {
    seq(samples, s requires 0 <= s < samples => OrderingOf(n, beacon, s, h))
  }

  /** The lottery estimate's numerators: the same sum over drawn orderings, which conserves value sample by sample. */
  method LotteryNumerators(v: Game, n: nat, samples: nat, beacon: seq<Bytes.Byte>, h: DigestHash) returns (acc: seq<Element>)
    requires Digests32(h) && |beacon| == 32 && samples <= Bytes.Limit(8)
    ensures |acc| == n && (n > 0 ==> Cong(Sum(acc), samples * v(Elements(Upto(n))), P))
    ensures forall i :: 0 <= i < n ==> acc[i] == Reduce(Accumulated(v, DrawnOrders(n, samples, beacon, h), i))
  {
    if n == 0 || samples == 0 {
      acc := seq(n, _ => 0);
      NothingDrawn(v, n, beacon, h);
      return;
    }
    var orders: seq<seq<nat>> := [];
    var s := 0;
    while s < samples
      invariant 0 <= s <= samples && orders == DrawnOrders(n, s, beacon, h)
    {
      var order := Ordering(n, beacon, s, h);
      orders := orders + [order];
      s := s + 1;
    }
    acc := Accumulate(v, n, orders);
    SumOfReduced(acc, AccumulatedBy(v, orders), n);
    assert acc[..n] == acc;
    ValueConserved(v, n, orders);
  }

  lemma NothingDrawn(v: Game, n: nat, beacon: seq<Bytes.Byte>, h: DigestHash)
    requires Digests32(h)
    ensures forall i :: 0 <= i < n ==> Reduce(Accumulated(v, DrawnOrders(n, 0, beacon, h), i)) == 0
    ensures Sum(seq(n, _ => 0)) == 0 && Cong(0, 0 * v(Elements(Upto(n))), P)
  {
    ZerosAddUp(n);
    CongRefl(0, P);
  }

  lemma {:induction false} ZerosAddUp(n: nat)
    ensures Sum(seq(n, _ => 0)) == 0
  {
    if n > 0 {
      ZerosAddUp(n - 1);
      assert seq(n, _ => 0)[1..] == seq(n - 1, _ => 0);
    }
  }

  // ---------- efficiency ----------

  /** Summing over contributors first or over orderings first. */
  lemma {:induction false} ExchangeContributors(v: Game, orders: seq<seq<nat>>, n: nat)
    ensures SumBy(AccumulatedBy(v, orders), Upto(n)) == SumBy(Distributed(v, n), orders)
  {
    if orders == [] {
      SumByConstant(AccumulatedBy(v, orders), 0, Upto(n));
    } else {
      ExchangeContributors(v, orders[1..], n);
      SumByPlus(ByContributor(v, orders[0]), AccumulatedBy(v, orders[1..]), AccumulatedBy(v, orders), Upto(n));
    }
  }

  lemma ValueConserved(v: Game, n: nat, orders: seq<seq<nat>>)
    requires n > 0 && forall o :: o in orders ==> IsPermutation(o, n)
    ensures SumBy(AccumulatedBy(v, orders), Upto(n)) == |orders| * v(Elements(Upto(n)))
  {
    ExchangeContributors(v, orders, n);
    forall o | o in orders
      ensures Distributed(v, n)(o) == v(Elements(Upto(n)))
    {
      MarginalsAddUp(v, o, n);
    }
    SumByConstant(Distributed(v, n), v(Elements(Upto(n))), orders);
  }

  /** Efficiency: the accumulated marginals of all contributors are n! times the value of everyone. */
  lemma Efficiency(v: Game, n: nat)
    requires n > 0
    ensures SumBy(AccumulatedBy(v, All(n)), Upto(n)) == Factorial(n) * v(Elements(Upto(n)))
  {
    AllPermutationsOnce(n);
    ValueConserved(v, n, All(n));
  }

  // ---------- null contributors ----------

  ghost predicate IsNull(v: Game, n: nat, i: nat) {
    forall s: set<nat> :: s <= Elements(Upto(n)) ==> v(s + {i}) == v(s)
  }

  lemma NullMarginal(v: Game, n: nat, o: seq<nat>, i: nat)
    requires IsPermutation(o, n) && i < n && IsNull(v, n, i) && Grounded(v)
    ensures Marginal(v, o, i) == 0
  {
    PermutationFacts(o, n);
    var p := PositionOf(o, i);
    var before := Elements(o[..p]);
    assert before <= Elements(o);
    assert o[..p + 1] == o[..p] + [i];
    assert Elements(o[..p + 1]) == before + {i};
    assert v(before + {i}) == v(before);
    if p == 0 {
      assert before == {};
    }
  }

  /** A contributor that never adds value accumulates nothing. */
  lemma NullContributor(v: Game, n: nat, i: nat)
    requires i < n && IsNull(v, n, i) && Grounded(v)
    ensures ShapleySum(v, n, i) == 0
  {
    AllPermutationsOnce(n);
    forall o | o in All(n)
      ensures ByOrdering(v, i)(o) == 0
    {
      NullMarginal(v, n, o, i);
    }
    SumByConstant(ByOrdering(v, i), 0, All(n));
  }

  // ---------- relabelling ----------

  function Relabel(pi: seq<nat>, order: seq<nat>): (r: seq<nat>)
    requires InRange(order, |pi|)
    ensures |r| == |order| && forall p :: 0 <= p < |order| ==> r[p] == pi[order[p]]
  {
    seq(|order|, p requires 0 <= p < |order| => pi[order[p]])
  }

  function Image(pi: seq<nat>, s: set<nat>): set<nat>
    requires forall i :: i in s ==> i < |pi|
  {
    set i | i in s :: pi[i]
  }

  /** w is v with its contributors renamed by pi. */
  ghost predicate Renamed(v: Game, w: Game, pi: seq<nat>) {
    forall s: set<nat> :: (forall i :: i in s ==> i < |pi|) ==> w(s) == v(Image(pi, s))
  }

  lemma RelabelPermutation(pi: seq<nat>, order: seq<nat>, n: nat)
    requires IsPermutation(pi, n) && IsPermutation(order, n)
    ensures InRange(order, |pi|)
    ensures IsPermutation(Relabel(pi, order), n)
  {
    PermutationFacts(pi, n);
    PermutationFacts(order, n);
    var r := Relabel(pi, order);
    forall i, j | 0 <= i < j < |r|
      ensures r[i] != r[j]
    {
      assert order[i] != order[j];
      var a, b := order[i], order[j];
      assert a < b ==> pi[a] != pi[b];
      assert b < a ==> pi[b] != pi[a];
    }
    forall x | x in r
      ensures x in Upto(n)
    {
      var p :| 0 <= p < |r| && r[p] == x;
      assert pi[order[p]] in pi;
      assert Upto(n)[x] == x;
    }
    Rearranges(Upto(n), r);
  }

  lemma RelabelInjective(pi: seq<nat>, a: seq<nat>, b: seq<nat>, n: nat)
    requires IsPermutation(pi, n) && IsPermutation(a, n) && IsPermutation(b, n)
    requires InRange(a, |pi|) && InRange(b, |pi|)
    requires Relabel(pi, a) == Relabel(pi, b)
    ensures a == b
  {
    PermutationFacts(pi, n);
    PermutationFacts(a, n);
    PermutationFacts(b, n);
    forall p | 0 <= p < n
      ensures a[p] == b[p]
    {
      assert Relabel(pi, a)[p] == pi[a[p]] && Relabel(pi, b)[p] == pi[b[p]];
    }
  }

  lemma MarginalRenamed(v: Game, w: Game, pi: seq<nat>, order: seq<nat>, n: nat, i: nat)
    requires IsPermutation(pi, n) && IsPermutation(order, n) && Renamed(v, w, pi) && i < n
    ensures |pi| == n && InRange(order, |pi|)
    ensures Marginal(w, order, i) == Marginal(v, Relabel(pi, order), pi[i])
  {
    PermutationFacts(pi, n);
    PermutationFacts(order, n);
    RelabelPermutation(pi, order, n);
    PermutationFacts(Relabel(pi, order), n);
    hide IsPermutation, Renamed;
    PositionRelabelled(pi, order, i);
    var p := PositionOf(order, i);
    PrefixRenamed(v, w, pi, order, p);
    PrefixRenamed(v, w, pi, order, p + 1);
  }

  lemma PositionRelabelled(pi: seq<nat>, order: seq<nat>, i: nat)
    requires InRange(order, |pi|) && i in order && NoDup(Relabel(pi, order))
    ensures i < |pi| && pi[i] in Relabel(pi, order)
    ensures PositionOf(Relabel(pi, order), pi[i]) == PositionOf(order, i)
  {
    var p := PositionOf(order, i);
    assert Relabel(pi, order)[p] == pi[i];
    PositionIs(Relabel(pi, order), p);
  }

  lemma PrefixRenamed(v: Game, w: Game, pi: seq<nat>, order: seq<nat>, p: nat)
    requires p <= |order| && InRange(order, |pi|) && Renamed(v, w, pi)
    ensures ValueBefore(w, order, p) == ValueBefore(v, Relabel(pi, order), p)
  {
    if p > 0 {
      var s := Elements(order[..p]);
      assert forall i :: i in s ==> i in order;
      var r := Relabel(pi, order);
      assert Image(pi, s) == Elements(r[..p]) by {
        forall x
          ensures x in Image(pi, s) <==> x in Elements(r[..p])
        {
          if x in Image(pi, s) {
            var i :| i in s && pi[i] == x;
            var q :| 0 <= q < p && order[..p][q] == i;
            assert r[..p][q] == x;
          }
          if x in Elements(r[..p]) {
            var q :| 0 <= q < p && r[..p][q] == x;
            assert order[..p][q] in s && pi[order[..p][q]] == x;
          }
        }
      }
    }
  }

  ghost function RelabelAll(pi: seq<nat>, orders: seq<seq<nat>>): (r: seq<seq<nat>>)
    requires forall o :: o in orders ==> InRange(o, |pi|)
    ensures |r| == |orders| && forall t :: 0 <= t < |orders| ==> r[t] == Relabel(pi, orders[t])
  {
    seq(|orders|, t requires 0 <= t < |orders| => Relabel(pi, orders[t]))
  }

  lemma {:induction false} SumByRelabelled(f: seq<nat> -> int, g: seq<nat> -> int, pi: seq<nat>, orders: seq<seq<nat>>)
    requires forall o :: o in orders ==> InRange(o, |pi|)
    requires forall o :: o in orders ==> f(o) == g(Relabel(pi, o))
    ensures SumBy(f, orders) == SumBy(g, RelabelAll(pi, orders))
  {
    if orders != [] {
      SumByRelabelled(f, g, pi, orders[1..]);
      assert RelabelAll(pi, orders)[1..] == RelabelAll(pi, orders[1..]);
      assert orders[0] in orders;
    }
  }

  lemma AllInRange(n: nat)
    ensures forall o :: o in All(n) ==> InRange(o, n)
  {
    AllPermutationsOnce(n);
    forall o | o in All(n)
      ensures InRange(o, n)
    {
      PermutationFacts(o, n);
      assert forall p :: 0 <= p < |o| ==> o[p] in o;
    }
  }

  /** Relabelling permutes the list of all orderings. */
  lemma RelabelAllRearranges(pi: seq<nat>, n: nat)
    requires IsPermutation(pi, n)
    ensures |pi| == n && (forall o :: o in All(n) ==> InRange(o, |pi|))
    ensures multiset(RelabelAll(pi, All(n))) == multiset(All(n))
  {
    PermutationFacts(pi, n);
    AllPermutationsOnce(n);
    AllInRange(n);
    var orders := All(n);
    var r := RelabelAll(pi, orders);
    forall a, b | 0 <= a < b < |r|
      ensures r[a] != r[b]
    {
      if r[a] == r[b] {
        RelabelInjective(pi, orders[a], orders[b], n);
      }
    }
    forall x | x in r
      ensures x in orders
    {
      var t :| 0 <= t < |r| && r[t] == x;
      RelabelPermutation(pi, orders[t], n);
    }
    Rearranges(orders, r);
  }

  /** Equivariance: renaming the contributors renames the division. */
  lemma Equivariance(v: Game, w: Game, pi: seq<nat>, n: nat, i: nat)
    requires IsPermutation(pi, n) && Renamed(v, w, pi) && i < n
    ensures |pi| == n && ShapleySum(w, n, i) == ShapleySum(v, n, pi[i])
  {
    RelabelAllRearranges(pi, n);
    AllPermutationsOnce(n);
    var f, g := ByOrdering(w, i), ByOrdering(v, pi[i]);
    forall o | o in All(n)
      ensures f(o) == g(Relabel(pi, o))
    {
      MarginalRenamed(v, w, pi, o, n, i);
    }
    SumByRelabelled(f, g, pi, All(n));
    SumByRearrangement(g, RelabelAll(pi, All(n)), All(n));
  }

  // ---------- interchangeable contributors ----------

  ghost predicate Interchangeable(v: Game, n: nat, i: nat, j: nat) {
    forall s: set<nat> :: s <= Elements(Upto(n)) - {i, j} ==> v(s + {i}) == v(s + {j})
  }

  /** Symmetry: interchangeable contributors accumulate the same. */
  lemma Symmetry(v: Game, n: nat, i: nat, j: nat)
    requires i < n && j < n && i != j && Interchangeable(v, n, i, j)
    ensures ShapleySum(v, n, i) == ShapleySum(v, n, j)
  {
    var pi := Swap(Upto(n), i, j);
    SwapRearranges(Upto(n), i, j);
    forall s: set<nat> | forall x :: x in s ==> x < |pi|
      ensures v(s) == v(Image(pi, s))
    {
      SwapImage(v, pi, s, n, i, j);
    }
    Equivariance(v, v, pi, n, i);
  }

  lemma SwapImage(v: Game, pi: seq<nat>, s: set<nat>, n: nat, i: nat, j: nat)
    requires i < n && j < n && i != j && Interchangeable(v, n, i, j)
    requires pi == Swap(Upto(n), i, j) && forall x :: x in s ==> x < |pi|
    ensures v(s) == v(Image(pi, s))
  {
    var rest := s - {i, j};
    assert forall x :: x in rest ==> pi[x] == x;
    assert rest <= Elements(Upto(n)) - {i, j} by {
      forall x | x in rest
        ensures x in Elements(Upto(n))
      {
        assert Upto(n)[x] == x;
      }
    }
    if i in s && j in s {
      assert Image(pi, s) == s by {
        assert pi[i] == j && pi[j] == i;
      }
    } else if i in s {
      assert s == rest + {i} && Image(pi, s) == rest + {j};
    } else if j in s {
      assert s == rest + {j} && Image(pi, s) == rest + {i};
    } else {
      assert Image(pi, s) == s;
    }
  }

  // ---------- additivity ----------

  ghost predicate IsSumOf(u: Game, v: Game, w: Game) {
    forall s: set<nat> :: u(s) == v(s) + w(s)
  }

  /** Additivity: the division of a sum of games is the sum of the divisions. */
  lemma Additivity(u: Game, v: Game, w: Game, n: nat, i: nat)
    requires IsSumOf(u, v, w)
    ensures ShapleySum(u, n, i) == ShapleySum(v, n, i) + ShapleySum(w, n, i)
  {
    SumByPlus(ByOrdering(v, i), ByOrdering(w, i), ByOrdering(u, i), All(n));
  }

  /** In the marginals of an ordering the contributor at position p has the value of the first p + 1 contributors less that
      of the first p, where the value of nobody is zero. */
  lemma MarginalIsDifference(v: Game, n: nat, order: seq<nat>, p: nat)
    requires NoDup(order) && InRange(order, n) && p < |order|
    ensures
      var before, after := set q | 0 <= q < p :: order[q], set q | 0 <= q <= p :: order[q];
      order[p] < n && MarginalList(v, n, order)[order[p]] == Reduce(v(after) - if p == 0 then 0 else v(before))
  {
    PositionIs(order, p);
    assert Elements(order[..p]) == set q | 0 <= q < p :: order[q];
    assert Elements(order[..p + 1]) == set q | 0 <= q <= p :: order[q];
  }
}
