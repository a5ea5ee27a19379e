/** Enumerating permutations by swapping (src/settlement.rs:105-122) and drawing one by Fisher-Yates from a digest
    stream (src/settlement.rs:127-150). */
module Permutations {
  import opened Sequences
  import opened Bytes

  function Swap<T>(a: seq<T>, i: nat, j: nat): (b: seq<T>)
    requires i < |a| && j < |a|
    ensures |b| == |a|
  {
    a[i := a[j]][j := a[i]]
  }

  lemma SwapRearranges<T>(a: seq<T>, i: nat, j: nat)
    requires i < |a| && j < |a|
    ensures multiset(Swap(a, i, j)) == multiset(a)
  {
  }

  lemma SwapTwice<T>(a: seq<T>, i: nat, j: nat)
    requires i < |a| && j < |a|
    ensures Swap(Swap(a, i, j), i, j) == a
  {
  }

  lemma RearrangedNoDup<T(!new)>(a: seq<T>, b: seq<T>)
    requires NoDup(a) && multiset(a) == multiset(b)
    ensures NoDup(b) && |a| == |b|
  {
    assert |multiset(a)| == |a| && |multiset(b)| == |b|;
    forall i, j | 0 <= i < j < |b|
      ensures b[i] != b[j]
    {
      if b[i] == b[j] {
        TwiceInMultiset(b, i, j);
        assert b[i] in multiset(a);
        MultiplicityAtMostOne(a, b[i]);
      }
    }
  }

  lemma TwiceInMultiset<T>(b: seq<T>, i: nat, j: nat)
    requires i < j < |b| && b[i] == b[j]
    ensures multiset(b)[b[i]] >= 2
  {
    assert b == b[..j] + [b[j]] + b[j + 1..];
    assert b[i] in b[..j];
    assert multiset(b) == multiset(b[..j]) + multiset{b[j]} + multiset(b[j + 1..]);
  }

  // ---------- the swap recursion ----------

  /** All completions of a[..k], in the order the recursion emits them. */
  function Completions<T>(a: seq<T>, k: nat): seq<seq<T>>
    requires k <= |a|
    decreases |a| - k, |a| + 1
  {
    if k == |a| then [a] else Branches(a, k, k)
  }

  function Branches<T>(a: seq<T>, k: nat, i: nat): seq<seq<T>>
    requires k < |a| && k <= i <= |a|
    decreases |a| - k, |a| - i
  {
    if i == |a| then [] else Completions(Swap(a, k, i), k + 1) + Branches(a, k, i + 1)
  }

  function Factorial(n: nat): (f: nat)
    ensures f > 0
  {
    if n == 0 then 1 else Positive(n, Factorial(n - 1))
  }

  function Positive(n: nat, f: nat): (r: nat)
    requires n > 0 && f > 0
    ensures r == n * f && r > 0
  {
    assert n * f == (n - 1) * f + f;
    n * f
  }

  ghost predicate Completes<T>(a: seq<T>, k: nat, b: seq<T>)
    requires k <= |a|
  {
    |b| == |a| && b[..k] == a[..k] && multiset(b) == multiset(a)
  }

  lemma {:induction false} CompletionsCount<T>(a: seq<T>, k: nat)
    requires k <= |a|
    ensures |Completions(a, k)| == Factorial(|a| - k)
    decreases |a| - k, |a| + 1
  {
    if k < |a| {
      BranchesCount(a, k, k);
    }
  }

  lemma {:induction false} BranchesCount<T>(a: seq<T>, k: nat, i: nat)
    requires k < |a| && k <= i <= |a|
    ensures |Branches(a, k, i)| == (|a| - i) * Factorial(|a| - k - 1)
    decreases |a| - k, |a| - i
  {
    if i < |a| {
      CompletionsCount(Swap(a, k, i), k + 1);
      BranchesCount(a, k, i + 1);
      var f := Factorial(|a| - k - 1);
      assert (|a| - i) * f == f + (|a| - i - 1) * f;
    }
  }

  /** Everything emitted completes the prefix. */
  lemma {:induction false} CompletionsSound<T>(a: seq<T>, k: nat, b: seq<T>)
    requires k <= |a| && b in Completions(a, k)
    ensures Completes(a, k, b)
    decreases |a| - k, |a| + 1
  {
    if k < |a| {
      var i := BranchesSound(a, k, k, b);
    }
  }

  lemma {:induction false} BranchesSound<T>(a: seq<T>, k: nat, i: nat, b: seq<T>) returns (j: nat)
    requires k < |a| && k <= i <= |a| && b in Branches(a, k, i)
    ensures i <= j < |a| && Completes(a, k, b) && b[k] == a[j]
    decreases |a| - k, |a| - i
  {
    var s := Swap(a, k, i);
    if b in Completions(s, k + 1) {
      j := i;
      CompletionsSound(s, k + 1, b);
      SwapRearranges(a, k, i);
      assert b[..k] == b[..k + 1][..k] == s[..k + 1][..k] == a[..k];
      assert b[k] == b[..k + 1][k];
    } else {
      j := BranchesSound(a, k, i + 1, b);
    }
  }

  /** Every completion of the prefix is emitted. */
  lemma {:induction false} CompletionsComplete<T(!new)>(a: seq<T>, k: nat, b: seq<T>)
    requires k <= |a| && NoDup(a) && Completes(a, k, b)
    ensures b in Completions(a, k)
    decreases |a| - k, |a| + 1
  {
    if k == |a| {
      assert a[..k] == a && b[..k] == b;
    } else {
      RearrangedNoDup(a, b);
      assert forall j :: 0 <= j < k ==> b[j] == b[..k][j] == a[..k][j] == a[j];
      assert b[k] in multiset(b);
      var i :| 0 <= i < |a| && a[i] == b[k];
      assert i >= k;
      BranchesComplete(a, k, k, i, b);
    }
  }

  lemma {:induction false} BranchesComplete<T(!new)>(a: seq<T>, k: nat, from: nat, i: nat, b: seq<T>)
    requires k < |a| && k <= from <= i < |a| && NoDup(a) && Completes(a, k, b) && b[k] == a[i]
    ensures b in Branches(a, k, from)
    decreases |a| - k, |a| - from
  {
    if from == i {
      var s := Swap(a, k, i);
      SwapRearranges(a, k, i);
      RearrangedNoDup(a, s);
      assert b[..k + 1] == b[..k] + [b[k]] == s[..k + 1];
      CompletionsComplete(s, k + 1, b);
    } else {
      BranchesComplete(a, k, from + 1, i, b);
    }
  }

  /** Nothing is emitted twice. */
  lemma {:induction false} CompletionsDistinct<T(!new)>(a: seq<T>, k: nat)
    requires k <= |a| && NoDup(a)
    ensures NoDup(Completions(a, k))
    decreases |a| - k, |a| + 1
  {
    if k < |a| {
      BranchesDistinct(a, k, k);
    }
  }

  lemma {:induction false} BranchesDistinct<T(!new)>(a: seq<T>, k: nat, i: nat)
    requires k < |a| && k <= i <= |a| && NoDup(a)
    ensures NoDup(Branches(a, k, i))
    decreases |a| - k, |a| - i
  {
    if i < |a| {
      var s := Swap(a, k, i);
      SwapRearranges(a, k, i);
      RearrangedNoDup(a, s);
      CompletionsDistinct(s, k + 1);
      BranchesDistinct(a, k, i + 1);
      var x, y := Completions(s, k + 1), Branches(a, k, i + 1);
      forall p, q | 0 <= p < |x| && 0 <= q < |y|
        ensures x[p] != y[q]
      {
        CompletionsSound(s, k + 1, x[p]);
        var j := BranchesSound(a, k, i + 1, y[q]);
        assert x[p][k] == x[p][..k + 1][k] == s[..k + 1][k] == a[i];
      }
      NoDupAppend(x, y);
    }
  }

  lemma NoDupAppend<T(!new)>(x: seq<T>, y: seq<T>)
    requires NoDup(x) && NoDup(y)
    requires forall p, q :: 0 <= p < |x| && 0 <= q < |y| ==> x[p] != y[q]
    ensures NoDup(x + y)
  {
  }

  function All(n: nat): seq<seq<nat>> {
    Completions(Upto(n), 0)
  }

  ghost predicate IsPermutation(p: seq<nat>, n: nat) {
    multiset(p) == multiset(Upto(n))
  }

  /** permutations(n) lists each permutation of 0..n exactly once, n! in all. */
  lemma AllPermutationsOnce(n: nat)
    ensures |All(n)| == Factorial(n) && NoDup(All(n))
    ensures forall p :: p in All(n) <==> IsPermutation(p, n)
  {
    var a := Upto(n);
    CompletionsCount(a, 0);
    CompletionsDistinct(a, 0);
    forall p: seq<nat>
      ensures p in All(n) <==> IsPermutation(p, n)
    {
      if p in All(n) {
        CompletionsSound(a, 0, p);
      }
      if IsPermutation(p, n) {
        assert |multiset(p)| == |p| && |multiset(a)| == n;
        CompletionsComplete(a, 0, p);
      }
    }
  }

  method EnumerateFrom(a: array<nat>, k: nat, out: seq<seq<nat>>) returns (more: seq<seq<nat>>)
    requires k <= a.Length
    modifies a
    ensures a[..] == old(a[..])
    ensures more == out + Completions(a[..], k)
    decreases a.Length - k
  {
    if k == a.Length {
      return out + [a[..]];
    }
    more := out;
    var i := k;
    while i < a.Length
      invariant k <= i <= a.Length
      invariant a[..] == old(a[..])
      invariant out + Completions(a[..], k) == more + Branches(a[..], k, i)
    {
      ghost var before := a[..];
      a[k], a[i] := a[i], a[k];
      assert a[..] == Swap(before, k, i);
      more := EnumerateFrom(a, k + 1, more);
      SwapTwice(before, k, i);
      a[k], a[i] := a[i], a[k];
      assert a[..] == Swap(Swap(before, k, i), k, i);
      i := i + 1;
    }
  }

  method Enumerate(n: nat) returns (out: seq<seq<nat>>)
    ensures out == All(n)
  {
    var cur := new nat[n](i => i);
    assert cur[..] == Upto(n);
    out := EnumerateFrom(cur, 0, []);
  }

  // ---------- Fisher-Yates ----------

  /** One choice for each position: choices[i] is the position, at most i, swapped into position i. */
  ghost predicate ValidChoices(choices: seq<nat>) {
    forall i :: 0 <= i < |choices| ==> choices[i] <= i
  }

  /** The shuffle from position i down to 1. */
  function Shuffle<T>(a: seq<T>, i: nat, choices: seq<nat>): (b: seq<T>)
    requires (i < |a| || i == 0) && i < |choices| + 1 && |choices| == |a|
    requires forall j :: 0 <= j < |choices| ==> choices[j] <= j
    decreases i
  {
    if i == 0 then a else Shuffle(Swap(a, i, choices[i]), i - 1, choices)
  }

  lemma {:induction false} ShuffleRearranges<T>(a: seq<T>, i: nat, choices: seq<nat>)
    requires (i < |a| || i == 0) && |choices| == |a| && ValidChoices(choices)
    ensures multiset(Shuffle(a, i, choices)) == multiset(a) && |Shuffle(a, i, choices)| == |a|
    ensures Shuffle(a, i, choices)[if |a| == 0 then 0 else i + 1..] == a[if |a| == 0 then 0 else i + 1..]
    decreases i
  {
    if i != 0 {
      var s := Swap(a, i, choices[i]);
      SwapRearranges(a, i, choices[i]);
      ShuffleRearranges(s, i - 1, choices);
      var b := Shuffle(a, i, choices);
      assert b[i + 1..] == b[i..][1..] == s[i..][1..] == s[i + 1..] == a[i + 1..];
    }
  }

  /** The final occupant of position i is the one chosen for it. */
  lemma ShuffleAt<T>(a: seq<T>, i: nat, choices: seq<nat>)
    requires 0 < i < |a| && |choices| == |a| && ValidChoices(choices)
    ensures |Shuffle(a, i, choices)| == |a| && Shuffle(a, i, choices)[i] == a[choices[i]]
  {
    var s := Swap(a, i, choices[i]);
    ShuffleRearranges(s, i - 1, choices);
    assert Shuffle(a, i, choices) == Shuffle(s, i - 1, choices) && s[i] == a[choices[i]] && |s| == |a|;
    hide Shuffle, Swap, ValidChoices;
    SameTail(Shuffle(s, i - 1, choices), s, i);
  }

  lemma SameTail<T>(a: seq<T>, b: seq<T>, i: nat)
    requires |a| == |b| && i < |a| && a[i..] == b[i..]
    ensures a[i] == b[i]
  {
    assert a[i] == a[i..][0] && b[i] == b[i..][0];
  }

  /** Different choices give different orderings. */
  lemma {:induction false} ShuffleInjective<T(!new)>(a: seq<T>, i: nat, c: seq<nat>, d: seq<nat>)
    requires i < |a| && |c| == |d| == |a| && ValidChoices(c) && ValidChoices(d) && NoDup(a)
    requires Shuffle(a, i, c) == Shuffle(a, i, d)
    ensures forall j :: 0 < j <= i ==> c[j] == d[j]
    decreases i
  {
    if i != 0 {
      ShuffleAt(a, i, c);
      ShuffleAt(a, i, d);
      assert c[i] == d[i];
      var s := Swap(a, i, c[i]);
      SwapRearranges(a, i, c[i]);
      RearrangedNoDup(a, s);
      ShuffleInjective(s, i - 1, c, d);
    }
  }

  /** The position, at most i, that holds the final occupant of position i. */
  lemma ChosenPosition<T(!new)>(a: seq<T>, i: nat, b: seq<T>) returns (j: nat)
    requires i < |a| && multiset(b) == multiset(a) && |b| == |a| && b[i + 1..] == a[i + 1..]
    ensures j <= i && a[j] == b[i] && Swap(a, i, j)[i..] == b[i..]
  {
    PrefixMultiset(a, b, i + 1);
    assert b[..i + 1][i] == b[i];
    assert b[i] in multiset(a[..i + 1]);
    j :| 0 <= j < i + 1 && a[..i + 1][j] == b[i];
    var s := Swap(a, i, j);
    assert s[i + 1..] == a[i + 1..];
    assert b[i..] == [b[i]] + b[i + 1..] && s[i..] == [s[i]] + s[i + 1..];
  }

  /** Every ordering comes from some choices. */
  lemma {:induction false} ShuffleSurjective<T(!new)>(a: seq<T>, i: nat, b: seq<T>) returns (choices: seq<nat>)
    requires i < |a| && NoDup(a) && multiset(b) == multiset(a) && |b| == |a| && b[i + 1..] == a[i + 1..]
    ensures |choices| == |a| && ValidChoices(choices) && Shuffle(a, i, choices) == b
    decreases i
  {
    var j := ChosenPosition(a, i, b);
    if i == 0 {
      choices := seq(|a|, _ => 0);
      assert a == Swap(a, 0, 0)[0..] == b[0..] == b;
    } else {
      var s := Swap(a, i, j);
      SwapRearranges(a, i, j);
      RearrangedNoDup(a, s);
      var rest := ShuffleSurjective(s, i - 1, b);
      choices := rest[i := j];
      ShuffleIgnores(s, i - 1, rest, choices);
    }
  }

  lemma PrefixMultiset<T>(a: seq<T>, b: seq<T>, k: nat)
    requires k <= |a| == |b| && multiset(a) == multiset(b) && a[k..] == b[k..]
    ensures multiset(a[..k]) == multiset(b[..k])
  {
    assert a == a[..k] + a[k..] && b == b[..k] + b[k..];
    assert multiset(a[..k]) == multiset(a) - multiset(a[k..]);
    assert multiset(b[..k]) == multiset(b) - multiset(b[k..]);
  }

  lemma {:induction false} ShuffleIgnores<T>(a: seq<T>, i: nat, c: seq<nat>, d: seq<nat>)
    requires (i < |a| || i == 0) && |c| == |d| == |a| && ValidChoices(c) && ValidChoices(d)
    requires forall j :: 0 <= j <= i && j < |c| ==> c[j] == d[j]
    ensures Shuffle(a, i, c) == Shuffle(a, i, d)
    decreases i
  {
    if i != 0 {
      ShuffleIgnores(Swap(a, i, c[i]), i - 1, c, d);
    }
  }

  // ---------- the ordering drawn from a digest stream ----------

  type DigestHash = seq<Byte> -> seq<Byte>

  ghost predicate Digests32(h: DigestHash) {
    forall x :: |h(x)| == 32
  }

  ghost function DigestAt(h: DigestHash, seed: seq<Byte>, b: nat): seq<Byte> {
    if b == 0 then h(seed) else h(DigestAt(h, seed, b - 1))
  }

  lemma DigestAtLength(h: DigestHash, seed: seq<Byte>, b: nat)
    requires Digests32(h)
    ensures |DigestAt(h, seed, b)| == 32
  {
  }

  /** The t-th 64-bit draw: four to a digest. */
  ghost function Draw(h: DigestHash, seed: seq<Byte>, t: nat): nat
    requires Digests32(h)
  {
    DigestAtLength(h, seed, t / 4);
    FromLE(DigestAt(h, seed, t / 4)[8 * (t % 4)..8 * (t % 4) + 8])
  }

  /** The choices those draws make for n contributors: position i uses draw n - 1 - i, reduced modulo i + 1. */
  ghost function DrawnChoices(h: DigestHash, seed: seq<Byte>, n: nat): (choices: seq<nat>)
    requires Digests32(h)
    ensures |choices| == n && ValidChoices(choices)
  {
    seq(n, i requires 0 <= i < n => Draw(h, seed, n - 1 - i) % (i + 1))
  }

  /** The next eight bytes of the stream, hashing the digest again when it is used up. */
  method NextDraw(h: DigestHash, ghost seed: seq<Byte>, digest: seq<Byte>, byte: nat, ghost t: nat)
    returns (v: nat, digest': seq<Byte>, byte': nat)
    requires Digests32(h) && InStream(h, seed, digest, byte, t)
    ensures v == Draw(h, seed, t) && InStream(h, seed, digest', byte', t + 1)
  {
    digest', byte' := digest, byte;
    if byte' + 8 > 32 {
      digest' := h(digest');
      byte' := 0;
    }
    assert digest' == DigestAt(h, seed, t / 4) && byte' == 8 * (t % 4);
    v := FromLE(digest'[byte'..byte' + 8]);
    byte' := byte' + 8;
  }

  /** The cursor stands before draw t: inside the digest that holds it, or at the end of the one before. */
  ghost predicate InStream(h: DigestHash, seed: seq<Byte>, digest: seq<Byte>, byte: nat, t: nat) {
    && |digest| == 32
    && if t > 0 && t % 4 == 0
       then byte == 32 && digest == DigestAt(h, seed, t / 4 - 1)
       else byte == 8 * (t % 4) && digest == DigestAt(h, seed, t / 4)
  }

  lemma StreamStart(h: DigestHash, seed: seq<Byte>)
    requires Digests32(h)
    ensures InStream(h, seed, h(seed), 0, 0)
  {
  }

  lemma ChoiceIs(h: DigestHash, seed: seq<Byte>, n: nat, i: nat)
    requires Digests32(h) && i < n
    ensures DrawnChoices(h, seed, n)[i] == Draw(h, seed, n - 1 - i) % (i + 1) <= i
  {
  }

  method SwapInPlace(p: array<nat>, i: nat, j: nat)
    requires i < p.Length && j < p.Length
    modifies p
    ensures p[..] == Swap(old(p[..]), i, j)
  {
    p[i], p[j] := p[j], p[i];
  }

  /** What is left to do once positions above i have their final occupants. */
  ghost predicate ShufflesTo(p: seq<nat>, i: nat, choices: seq<nat>, target: seq<nat>) {
    && i < |p| && |choices| == |p| && ValidChoices(choices)
    && Shuffle(p, i, choices) == target
  }

  lemma ShuffleStart(p: seq<nat>, choices: seq<nat>)
    requires |p| >= 2 && |choices| == |p| && ValidChoices(choices)
    ensures ShufflesTo(p, |p| - 1, choices, Shuffle(p, |p| - 1, choices))
  {
  }

  lemma ShuffleStep(p: seq<nat>, i: nat, choices: seq<nat>, target: seq<nat>)
    requires i > 0 && ShufflesTo(p, i, choices, target)
    ensures choices[i] < |p| && ShufflesTo(Swap(p, i, choices[i]), i - 1, choices, target)
  {
  }

  method DrawShuffle(p: array<nat>, h: DigestHash, seed: seq<Byte>)
    requires Digests32(h) && p.Length >= 2
    modifies p
    ensures p[..] == Shuffle(old(p[..]), p.Length - 1, DrawnChoices(h, seed, p.Length))
  {
    var n := p.Length;
    ghost var choices := DrawnChoices(h, seed, n);
    ghost var target := Shuffle(p[..], n - 1, choices);
    ShuffleStart(p[..], choices);
    StreamStart(h, seed);
    hide InStream, DrawnChoices, Digests32, ShufflesTo, Shuffle;
    var digest, byte := h(seed), 0;
    ghost var t: nat := 0;
    var i := n - 1;
    while i >= 1
      invariant 0 <= i < n && t + i == n - 1
      invariant InStream(h, seed, digest, byte, t)
      invariant ShufflesTo(p[..], i, choices, target)
    {
      digest, byte := DrawOne(p, h, seed, i, digest, byte, t, target);
      i, t := i - 1, t + 1;
    }
    ShuffleDone(p[..], choices, target);
  }

  /** One swap of the shuffle, with the next number of the stream. */
  method DrawOne(p: array<nat>, h: DigestHash, ghost seed: seq<Byte>, i: nat, digest: seq<Byte>, byte: nat, ghost t: nat,
                 ghost target: seq<nat>)
    returns (digest': seq<Byte>, byte': nat)
    requires Digests32(h) && 1 <= i < p.Length && t + i == p.Length - 1 && InStream(h, seed, digest, byte, t)
    requires ShufflesTo(p[..], i, DrawnChoices(h, seed, p.Length), target)
    modifies p
    ensures InStream(h, seed, digest', byte', t + 1)
    ensures ShufflesTo(p[..], i - 1, DrawnChoices(h, seed, p.Length), target)
  {
    hide InStream, Draw, DrawnChoices, Swap, ShufflesTo;
    var v: nat;
    v, digest', byte' := NextDraw(h, seed, digest, byte, t);
    ChoiceIs(h, seed, p.Length, i);
    ShuffleStep(p[..], i, DrawnChoices(h, seed, p.Length), target);
    SwapInPlace(p, i, v % (i + 1));
  }

  lemma ShuffleDone(p: seq<nat>, choices: seq<nat>, target: seq<nat>)
    requires ShufflesTo(p, 0, choices, target)
    ensures p == target
  {
  }

  /** The ordering of a nonce: 0..n shuffled by the choices drawn from the digest stream of beacon and nonce. */
  ghost function OrderingOf(n: nat, beacon: seq<Byte>, nonce: nat, h: DigestHash): (perm: seq<nat>)
    requires Digests32(h)
    ensures IsPermutation(perm, n)
  {
    if n < 2 then Upto(n)
    else
      ShuffleRearranges(Upto(n), n - 1, DrawnChoices(h, beacon + ToLE(nonce, 8), n));
      Shuffle(Upto(n), n - 1, DrawnChoices(h, beacon + ToLE(nonce, 8), n))
  }

  method Ordering(n: nat, beacon: seq<Byte>, nonce: nat, h: DigestHash) returns (perm: seq<nat>)
    requires Digests32(h) && |beacon| == 32 && nonce < Limit(8)
    ensures perm == OrderingOf(n, beacon, nonce, h) && IsPermutation(perm, n)
  {
    var p := new nat[n](i => i);
    assert p[..] == Upto(n);
    if n >= 2 {
      ShuffleRearranges(Upto(n), n - 1, DrawnChoices(h, beacon + ToLE(nonce, 8), n));
      DrawShuffle(p, h, beacon + ToLE(nonce, 8));
    }
    perm := p[..];
  }
}
