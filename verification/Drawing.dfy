/** The numbers that the lottery draws (src/settlement.rs:126-150): consecutive words of a stream of digests, and what they
    can come to. */
module Drawing {
  import opened Numbers
  import opened Sequences
  import opened Bytes
  import opened Shards
  import opened Permutations

  /** The hash applied q times. */
  ghost function Iterated(h: DigestHash, x: seq<Byte>, q: nat): seq<Byte> {
    if q == 0 then x else h(Iterated(h, x, q - 1))
  }

  /** h(seed), h(h(seed)) and so on, q digests one after the other. */
  ghost function Stream(h: DigestHash, seed: seq<Byte>, q: nat): seq<Byte> {
    if q == 0 then [] else Stream(h, seed, q - 1) + Iterated(h, seed, q)
  }

  lemma {:induction false} DigestIsIterated(h: DigestHash, seed: seq<Byte>, b: nat)
    ensures DigestAt(h, seed, b) == Iterated(h, seed, b + 1)
  {
    if b > 0 {
      DigestIsIterated(h, seed, b - 1);
    } else {
      assert Iterated(h, seed, 1) == h(Iterated(h, seed, 0));
    }
  }

  lemma {:induction false} StreamLength(h: DigestHash, seed: seq<Byte>, q: nat)
    requires Digests32(h)
    ensures |Stream(h, seed, q)| == 32 * q
  {
    if q > 0 {
      StreamLength(h, seed, q - 1);
    }
  }

  /** Digest b of the stream. */
  lemma {:induction false} StreamAt(h: DigestHash, seed: seq<Byte>, q: nat, b: nat)
    requires Digests32(h) && b < q
    ensures |Stream(h, seed, q)| == 32 * q && Stream(h, seed, q)[32 * b..32 * b + 32] == DigestAt(h, seed, b)
  {
    StreamLength(h, seed, q);
    StreamLength(h, seed, q - 1);
    if b < q - 1 {
      StreamAt(h, seed, q - 1, b);
      assert Stream(h, seed, q)[32 * b..32 * b + 32] == Stream(h, seed, q - 1)[32 * b..32 * b + 32];
    } else {
      DigestIsIterated(h, seed, b);
      assert Stream(h, seed, q)[32 * b..32 * b + 32] == Iterated(h, seed, q);
    }
  }

  /** The t-th number drawn is the t-th eight bytes of the stream, as a little-endian number. */
  lemma DrawIsWord(h: DigestHash, seed: seq<Byte>, t: nat, q: nat)
    requires Digests32(h) && 8 * t + 8 <= 32 * q
    ensures |Stream(h, seed, q)| == 32 * q && Draw(h, seed, t) == LittleEndian(Stream(h, seed, q), 8 * t, 8)
  {
    var b, w, s := t / 4, 8 * (t % 4), Stream(h, seed, q);
    assert 32 * b + w == 8 * t;
    StreamAt(h, seed, q, b);
    var word := DigestAt(h, seed, b)[w..w + 8];
    hide Stream, DigestAt;
    forall j | 0 <= j < 8
      ensures ByteAt(s, 8 * t + j) == ByteAt(word, j)
    {
      assert s[32 * b..32 * b + 32][w + j] == s[8 * t + j];
    }
    NumberOfBytes(word, s, 8 * t, 8);
  }

  // ---------- every ordering can be drawn ----------

  /** The least number that is not below `from` and leaves the remainder r modulo m. */
  function NumberFrom(from: nat, r: nat, m: nat): nat
    requires r < m
  {
    from + (r + m - from % m) % m
  }

  lemma NumberFromIs(from: nat, r: nat, m: nat)
    requires r < m
    ensures from <= NumberFrom(from, r, m) < from + m && NumberFrom(from, r, m) % m == r
  {
    var q, u := from / m, from % m;
    NumberFromAt(from, q, u, r, m);
  }

  lemma NumberFromAt(from: nat, q: nat, u: nat, r: nat, m: nat)
    requires r < m && u < m && from == q * m + u
    ensures from <= NumberFrom(from, r, m) < from + m && NumberFrom(from, r, m) % m == r
  {
    ModUnique(from, m, q, u);
    if r >= u {
      ModUnique(r + m - u, m, 1, r - u);
      ModUnique(from + (r - u), m, q, r);
    } else {
      ModUnique(r + m - u, m, 0, r + m - u);
      assert (q + 1) * m == q * m + m;
      ModUnique(from + (r + m - u), m, q + 1, r);
    }
  }

  /** A number for draw t that makes the choice for position n - 1 - t; those of the q-th digest lie from q * n on. */
  function WordFor(choices: seq<nat>, t: nat): nat {
    var n, i := |choices|, |choices| - 1 - t;
    if 0 <= i && choices[i] <= i then NumberFrom(t / 4 * n, choices[i], i + 1) else t / 4 * n
  }

  /** The q-th digest. */
  function DigestFor(choices: seq<nat>, q: nat): (d: seq<Byte>)
    ensures |d| == 32
  {
    ToLE(WordFor(choices, 4 * q), 8) + ToLE(WordFor(choices, 4 * q + 1), 8)
    + ToLE(WordFor(choices, 4 * q + 2), 8) + ToLE(WordFor(choices, 4 * q + 3), 8)
  }

  /** A hash whose digests from the seed on are these. */
  ghost function HashFor(choices: seq<nat>, seed: seq<Byte>): DigestHash {
    x => if x == seed then DigestFor(choices, 0)
         else if exists q: nat :: q <= |choices| / 4 && x == DigestFor(choices, q)
         then var q: nat :| q <= |choices| / 4 && x == DigestFor(choices, q); DigestFor(choices, q + 1)
         else ZeroBytes(32)
  }

  lemma WordBounds(choices: seq<nat>, t: nat)
    requires choices != [] && ValidChoices(choices)
    ensures t / 4 * |choices| <= WordFor(choices, t) < (t / 4 + 1) * |choices|
    ensures t < |choices| ==> WordFor(choices, t) % (|choices| - t) == choices[|choices| - 1 - t]
  {
    var n, i := |choices|, |choices| - 1 - t;
    assert (t / 4 + 1) * n == t / 4 * n + n;
    if i >= 0 {
      NumberFromIs(t / 4 * n, choices[i], i + 1);
    }
  }

  /** Small enough for eight bytes. */
  lemma WordFits(choices: seq<nat>, t: nat)
    requires 0 < |choices| <= 0x1_0000_0000 && ValidChoices(choices) && t / 4 <= |choices| / 4
    ensures WordFor(choices, t) < Limit(8)
  {
    Limits();
    WordBounds(choices, t);
    hide WordFor, Limit;
    Product(t / 4 + 1, |choices|, 0x4000_0001, 0x1_0000_0000);
  }

  lemma Product(a: nat, b: nat, c: nat, d: nat)
    requires a <= c && b <= d
    ensures a * b <= c * d
  {
    assert a * b + (c - a) * b == c * b;
    assert c * b + c * (d - b) == c * d;
  }

  lemma DigestWords(choices: seq<nat>, q: nat, w: nat)
    requires 0 < |choices| <= 0x1_0000_0000 && ValidChoices(choices) && q <= |choices| / 4 && w < 4
    ensures FromLE(DigestFor(choices, q)[8 * w..8 * w + 8]) == WordFor(choices, 4 * q + w)
  {
    var t := 4 * q + w;
    WordFits(choices, t);
    FromLEToLE(WordFor(choices, t), 8);
    FourWords(ToLE(WordFor(choices, 4 * q), 8), ToLE(WordFor(choices, 4 * q + 1), 8), ToLE(WordFor(choices, 4 * q + 2), 8),
              ToLE(WordFor(choices, 4 * q + 3), 8), w);
    hide WordFor, FromLE, ToLE, Limit;
  }

  lemma FourWords(a: seq<Byte>, b: seq<Byte>, c: seq<Byte>, d: seq<Byte>, w: nat)
    requires |a| == |b| == |c| == |d| == 8 && w < 4
    ensures (a + b + c + d)[8 * w..8 * w + 8] == if w == 0 then a else if w == 1 then b else if w == 2 then c else d
  {
  }

  /** Different digests are different: their first words lie in different intervals. */
  lemma DigestsDiffer(choices: seq<nat>, p: nat, q: nat)
    requires 0 < |choices| <= 0x1_0000_0000 && ValidChoices(choices) && p < q <= |choices| / 4
    ensures DigestFor(choices, p) != DigestFor(choices, q)
  {
    FirstWord(choices, p);
    FirstWord(choices, q);
    hide DigestFor, WordFor, FromLE, ValidChoices;
    Product(p + 1, |choices|, q, |choices|);
  }

  lemma FirstWord(choices: seq<nat>, q: nat)
    requires 0 < |choices| <= 0x1_0000_0000 && ValidChoices(choices) && q <= |choices| / 4
    ensures q * |choices| <= FromLE(DigestFor(choices, q)[..8]) < (q + 1) * |choices|
  {
    DigestWords(choices, q, 0);
    WordBounds(choices, 4 * q);
    hide DigestFor, WordFor, FromLE, ValidChoices;
    assert 4 * q / 4 == q && 4 * q + 0 == 4 * q;
    assert DigestFor(choices, q)[8 * 0..8 * 0 + 8] == DigestFor(choices, q)[..8];
  }

  lemma NextDigest(choices: seq<nat>, seed: seq<Byte>, q: nat)
    requires 0 < |choices| <= 0x1_0000_0000 && ValidChoices(choices) && q <= |choices| / 4 && |seed| == 40
    ensures HashFor(choices, seed)(DigestFor(choices, q)) == DigestFor(choices, q + 1)
  {
    hide DigestFor, WordFor, ValidChoices;
    var x := DigestFor(choices, q);
    assert x != seed;
    forall p: nat | p <= |choices| / 4 && x == DigestFor(choices, p)
      ensures p == q
    {
      if p < q {
        DigestsDiffer(choices, p, q);
      } else if q < p {
        DigestsDiffer(choices, q, p);
      }
    }
  }

  lemma SeedDigest(choices: seq<nat>, seed: seq<Byte>)
    ensures DigestAt(HashFor(choices, seed), seed, 0) == DigestFor(choices, 0)
  {
    hide DigestFor;
  }

  lemma {:induction false} DigestsFollow(choices: seq<nat>, seed: seq<Byte>, q: nat)
    requires 0 < |choices| <= 0x1_0000_0000 && ValidChoices(choices) && q <= |choices| / 4 && |seed| == 40
    ensures DigestAt(HashFor(choices, seed), seed, q) == DigestFor(choices, q)
  {
    hide HashFor, DigestFor, ValidChoices, DigestAt;
    if q == 0 {
      SeedDigest(choices, seed);
    } else {
      DigestsFollow(choices, seed, q - 1);
      NextDigest(choices, seed, q - 1);
      DigestAtStep(HashFor(choices, seed), seed, q);
    }
  }

  lemma DigestAtStep(h: DigestHash, seed: seq<Byte>, q: nat)
    requires q > 0
    ensures DigestAt(h, seed, q) == h(DigestAt(h, seed, q - 1))
  {
  }

  lemma HashDigests(choices: seq<nat>, seed: seq<Byte>)
    ensures Digests32(HashFor(choices, seed))
  {
    hide DigestFor;
    forall x
      ensures |HashFor(choices, seed)(x)| == 32
    {
    }
  }

  /** Any choices for up to 2^32 positions are drawn from the digests of some hash. */
  lemma ChoicesDrawn(choices: seq<nat>, seed: seq<Byte>)
    requires 0 < |choices| <= 0x1_0000_0000 && ValidChoices(choices) && |seed| == 40
    ensures Digests32(HashFor(choices, seed)) && DrawnChoices(HashFor(choices, seed), seed, |choices|) == choices
  {
    HashDigests(choices, seed);
    var n, h := |choices|, HashFor(choices, seed);
    hide HashFor, Draw, DrawnChoices, WordFor;
    forall i | 0 <= i < n
      ensures DrawnChoices(h, seed, n)[i] == choices[i]
    {
      var t := n - 1 - i;
      DrawnAt(choices, seed, t);
      WordBounds(choices, t);
      DrawnChoiceIs(h, seed, n, i);
    }
  }

  lemma DrawnChoiceIs(h: DigestHash, seed: seq<Byte>, n: nat, i: nat)
    requires Digests32(h) && i < n
    ensures DrawnChoices(h, seed, n)[i] == Draw(h, seed, n - 1 - i) % (i + 1)
  {
    hide Draw;
  }

  lemma DrawnAt(choices: seq<nat>, seed: seq<Byte>, t: nat)
    requires 0 < |choices| <= 0x1_0000_0000 && ValidChoices(choices) && |seed| == 40 && t < |choices|
    requires Digests32(HashFor(choices, seed))
    ensures Draw(HashFor(choices, seed), seed, t) == WordFor(choices, t)
  {
    var q, w := t / 4, t % 4;
    assert q <= |choices| / 4 && 4 * q + w == t;
    DigestsFollow(choices, seed, q);
    DigestWords(choices, q, w);
    hide HashFor, DigestFor, WordFor, FromLE, ValidChoices, Digests32;
  }

  /** For every beacon, nonce and up to 2^32 contributors every ordering is drawn under some 32-byte digest function: the
      numbers drawn for the positions are independent of each other. */
  lemma EveryOrderingDrawn(n: nat, beacon: seq<Byte>, nonce: nat, perm: seq<nat>)
    requires n <= 0x1_0000_0000 && |beacon| == 32 && IsPermutation(perm, n)
    ensures exists h: DigestHash :: Digests32(h) && OrderingOf(n, beacon, nonce, h) == perm
  {
    var seed := beacon + ToLE(nonce, 8);
    SameLength(perm, Upto(n));
    if n < 2 {
      HashDigests([], seed);
      var h := HashFor([], seed);
      SmallPermutation(n, perm);
      assert OrderingOf(n, beacon, nonce, h) == perm;
    } else {
      var choices := ShuffleSurjective(Upto(n), n - 1, perm);
      ChoicesDrawn(choices, seed);
      var h := HashFor(choices, seed);
      assert OrderingOf(n, beacon, nonce, h) == perm;
    }
  }

  lemma SameLength(a: seq<nat>, b: seq<nat>)
    requires multiset(a) == multiset(b)
    ensures |a| == |b|
  {
    assert |multiset(a)| == |a| && |multiset(b)| == |b|;
  }

  lemma SmallPermutation(n: nat, perm: seq<nat>)
    requires n < 2 && IsPermutation(perm, n) && |perm| == n
    ensures perm == Upto(n)
  {
    if n == 1 {
      assert perm[0] in multiset(perm);
      assert multiset(Upto(1)) == multiset{0} by { assert Upto(1) == [0]; }
    }
  }

  /** An ordering is 0 to n - 1 shuffled by choices, from the last position down: the choice for position i is word
      n - 1 - i of the stream from the beacon followed by the nonce in eight bytes, reduced modulo i + 1. */
  lemma OrderingFromStream(n: nat, beacon: seq<Byte>, nonce: nat, h: DigestHash) returns (seed: seq<Byte>, choices: seq<nat>)
    requires n >= 2 && Digests32(h) && nonce < 0x1_0000_0000_0000_0000
    ensures |seed| == |beacon| + 8 && seed[..|beacon|] == beacon && LittleEndian(seed, |beacon|, 8) == nonce
    ensures |choices| == n && |Stream(h, seed, n)| == 32 * n
    ensures forall i :: 0 <= i < n ==> choices[i] == LittleEndian(Stream(h, seed, n), 8 * (n - 1 - i), 8) % (i + 1)
    ensures ValidChoices(choices) && OrderingOf(n, beacon, nonce, h) == Shuffle(Upto(n), n - 1, choices)
  {
    seed := beacon + ToLE(nonce, 8);
    Limits();
    FromLEToLE(nonce, 8);
    forall j | 0 <= j < 8
      ensures ByteAt(seed, |beacon| + j) == ByteAt(ToLE(nonce, 8), j)
    {
    }
    NumberOfBytes(ToLE(nonce, 8), seed, |beacon|, 8);
    choices := DrawnChoices(h, seed, n);
    StreamLength(h, seed, n);
    hide Stream, ToLE, FromLE;
    forall i | 0 <= i < n
      ensures choices[i] == LittleEndian(Stream(h, seed, n), 8 * (n - 1 - i), 8) % (i + 1)
    {
      DrawnChoiceIs(h, seed, n, i);
      DrawIsWord(h, seed, n - 1 - i, n);
    }
  }
}
