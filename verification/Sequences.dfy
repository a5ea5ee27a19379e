/** Facts about finite sequences that several components share: duplicate-free sequences, rearrangements,
    and sums and products that do not depend on the order of their terms. */
module Sequences {

  ghost predicate NoDup<T(!new)>(s: seq<T>) {
    forall i, j :: 0 <= i < j < |s| ==> s[i] != s[j]
  }

  function Elements<T>(s: seq<T>): (r: set<T>)
    ensures forall i :: 0 <= i < |s| ==> s[i] in r
    ensures forall x :: x in r ==> x in s
  {
    set x | x in s
  }

  lemma {:induction false} NoDupCardinality<T(!new)>(s: seq<T>)
    requires NoDup(s)
    ensures |Elements(s)| == |s|
  {
    if s == [] {
    } else {
      NoDupCardinality(s[1..]);
      assert Elements(s) == {s[0]} + Elements(s[1..]);
    }
  }

  lemma {:induction false} MultiplicityAtMostOne<T(!new)>(s: seq<T>, x: T)
    requires NoDup(s)
    ensures multiset(s)[x] == if x in s then 1 else 0
  {
    if s == [] {
    } else {
      MultiplicityAtMostOne(s[1..], x);
      assert s == [s[0]] + s[1..];
    }
  }

  /** Pigeonhole: a duplicate-free sequence drawn from another of the same length rearranges it. */
  lemma Rearranges<T(!new)>(s: seq<T>, t: seq<T>)
    requires NoDup(t) && |t| == |s|
    requires forall x :: x in t ==> x in s
    requires NoDup(s)
    ensures multiset(s) == multiset(t)
  {
    NoDupCardinality(s);
    NoDupCardinality(t);
    SubsetOfSameSize(Elements(t), Elements(s));
    forall x: T
      ensures multiset(s)[x] == multiset(t)[x]
    {
      MultiplicityAtMostOne(s, x);
      MultiplicityAtMostOne(t, x);
      assert x in t <==> x in Elements(t);
    }
  }

  lemma SubsetOfSameSize<T>(a: set<T>, b: set<T>)
    requires a <= b && |a| == |b|
    ensures a == b
  {
    assert |b - a| == |b| - |a|;
  }

  lemma SubsetSize<T>(a: set<T>, b: set<T>)
    requires a <= b
    ensures |a| <= |b|
  {
    assert |b - a| == |b| - |a|;
  }

  /** Removing one occurrence of the head of `s` from a rearrangement `t` of `s`. */
  lemma SplitAtHead<T>(s: seq<T>, t: seq<T>) returns (i: nat)
    requires s != [] && multiset(s) == multiset(t)
    ensures i < |t| && t[i] == s[0] && t == t[..i] + [s[0]] + t[i + 1..]
    ensures multiset(s[1..]) == multiset(t[..i] + t[i + 1..])
  {
    assert s[0] in multiset(t);
    i :| 0 <= i < |t| && t[i] == s[0];
    assert s == [s[0]] + s[1..];
    assert t == t[..i] + [s[0]] + t[i + 1..];
    assert multiset(s) == multiset{s[0]} + multiset(s[1..]);
    assert multiset(t) == multiset(t[..i]) + multiset{s[0]} + multiset(t[i + 1..]);
    assert multiset(s[1..]) == multiset(s) - multiset{s[0]};
    assert multiset(t[..i] + t[i + 1..]) == multiset(t) - multiset{s[0]};
  }

  function Sum(s: seq<int>): int {
    if s == [] then 0 else s[0] + Sum(s[1..])
  }

  function Product(s: seq<int>): int {
    if s == [] then 1 else s[0] * Product(s[1..])
  }

  lemma {:induction false} SumAppend(s: seq<int>, t: seq<int>)
    ensures Sum(s + t) == Sum(s) + Sum(t)
  {
    if s == [] {
      assert s + t == t;
    } else {
      assert (s + t)[1..] == s[1..] + t;
      SumAppend(s[1..], t);
    }
  }

  lemma {:induction false} ProductAppend(s: seq<int>, t: seq<int>)
    ensures Product(s + t) == Product(s) * Product(t)
  {
    if s == [] {
      assert s + t == t;
    } else {
      assert (s + t)[1..] == s[1..] + t;
      ProductAppend(s[1..], t);
      assert s[0] * (Product(s[1..]) * Product(t)) == s[0] * Product(s[1..]) * Product(t);
    }
  }

  lemma {:induction false} SumOfRearrangement(s: seq<int>, t: seq<int>)
    requires multiset(s) == multiset(t)
    ensures Sum(s) == Sum(t)
  {
    if s == [] {
      assert |multiset(t)| == |t|;
    } else {
      var i := SplitAtHead(s, t);
      SumOfRearrangement(s[1..], t[..i] + t[i + 1..]);
      SumAppend(t[..i], t[i + 1..]);
      SumAppend(t[..i], [s[0]]);
      SumAppend(t[..i] + [s[0]], t[i + 1..]);
    }
  }

  lemma {:induction false} ProductOfRearrangement(s: seq<int>, t: seq<int>)
    requires multiset(s) == multiset(t)
    ensures Product(s) == Product(t)
  {
    if s == [] {
      assert |multiset(t)| == |t|;
    } else {
      var i := SplitAtHead(s, t);
      var a, b, x := t[..i], t[i + 1..], s[0];
      ProductOfRearrangement(s[1..], a + b);
      ProductAppend(a, b);
      ProductAppend(a, [x]);
      ProductAppend(a + [x], b);
      assert Product(s) == x * (Product(a) * Product(b)) == Product(a) * x * Product(b);
    }
  }

  // ---------- sums of a function over a sequence ----------

  function SumBy<T>(f: T -> int, s: seq<T>): int {
    if s == [] then 0 else f(s[0]) + SumBy(f, s[1..])
  }

  lemma {:induction false} SumByAppend<T>(f: T -> int, s: seq<T>, t: seq<T>)
    ensures SumBy(f, s + t) == SumBy(f, s) + SumBy(f, t)
  {
    if s == [] {
      assert s + t == t;
    } else {
      assert (s + t)[1..] == s[1..] + t;
      SumByAppend(f, s[1..], t);
    }
  }

  lemma {:induction false} SumByRearrangement<T>(f: T -> int, s: seq<T>, t: seq<T>)
    requires multiset(s) == multiset(t)
    ensures SumBy(f, s) == SumBy(f, t)
  {
    if s == [] {
      assert |multiset(t)| == |t|;
    } else {
      var i := SplitAtHead(s, t);
      SumByRearrangement(f, s[1..], t[..i] + t[i + 1..]);
      SumByAppend(f, t[..i], t[i + 1..]);
      SumByAppend(f, t[..i], [s[0]]);
      SumByAppend(f, t[..i] + [s[0]], t[i + 1..]);
    }
  }

  lemma {:induction false} SumByAgree<T>(f: T -> int, g: T -> int, s: seq<T>)
    requires forall x :: x in s ==> f(x) == g(x)
    ensures SumBy(f, s) == SumBy(g, s)
  {
    if s != [] {
      SumByAgree(f, g, s[1..]);
    }
  }

  lemma {:induction false} SumByPlus<T>(f: T -> int, g: T -> int, h: T -> int, s: seq<T>)
    requires forall x :: x in s ==> h(x) == f(x) + g(x)
    ensures SumBy(h, s) == SumBy(f, s) + SumBy(g, s)
  {
    if s != [] {
      SumByPlus(f, g, h, s[1..]);
    }
  }

  lemma {:induction false} SumByConstant<T>(f: T -> int, c: int, s: seq<T>)
    requires forall x :: x in s ==> f(x) == c
    ensures SumBy(f, s) == |s| * c
  {
    if s != [] {
      SumByConstant(f, c, s[1..]);
      assert |s| * c == (|s| - 1) * c + c;
    }
  }

  // ---------- a function applied to every element ----------

  function Map<T>(f: T -> nat, s: seq<T>): (r: seq<nat>)
    ensures |r| == |s|
  {
    if s == [] then [] else [f(s[0])] + Map(f, s[1..])
  }

  lemma {:induction false} MapAppend<T>(f: T -> nat, s: seq<T>, t: seq<T>)
    ensures Map(f, s + t) == Map(f, s) + Map(f, t)
  {
    if s == [] {
      assert s + t == t;
    } else {
      MapAppend(f, s[1..], t);
      assert (s + t)[1..] == s[1..] + t;
      assert Map(f, s + t) == [f(s[0])] + Map(f, s[1..] + t);
    }
  }

  lemma MapSnoc<T>(f: T -> nat, s: seq<T>, x: T)
    ensures Map(f, s + [x]) == Map(f, s) + [f(x)]
  {
    MapAppend(f, s, [x]);
  }

  lemma {:induction false} MapAgree<T>(f: T -> nat, g: T -> nat, s: seq<T>)
    requires forall x :: x in s ==> f(x) == g(x)
    ensures Map(f, s) == Map(g, s)
  {
    if s != [] {
      MapAgree(f, g, s[1..]);
    }
  }

  lemma {:induction false} MapRearrangement<T>(f: T -> nat, s: seq<T>, t: seq<T>)
    requires multiset(s) == multiset(t)
    ensures multiset(Map(f, s)) == multiset(Map(f, t))
    decreases |s|
  {
    if s == [] {
      assert multiset(t) == multiset{};
      assert t == [];
    } else {
      var i := SplitAtHead(s, t);
      MapRearrangement(f, s[1..], t[..i] + t[i + 1..]);
      MapAround(f, t[..i], s[0], t[i + 1..]);
      assert multiset(Map(f, s)) == multiset{f(s[0])} + multiset(Map(f, s[1..]));
    }
  }

  lemma MapAround<T>(f: T -> nat, a: seq<T>, x: T, b: seq<T>)
    ensures multiset(Map(f, a + [x] + b)) == multiset{f(x)} + multiset(Map(f, a + b))
  {
    MapAppend(f, a + [x], b);
    MapAppend(f, a, [x]);
    MapAppend(f, a, b);
    assert Map(f, [x]) == [f(x)];
  }

  function Upto(n: nat): (s: seq<nat>)
    ensures |s| == n && forall i :: 0 <= i < n ==> s[i] == i
  {
    seq(n, i => i)
  }
}
