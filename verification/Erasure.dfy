/** Reed-Solomon erasure coding (src/erasure.rs): what encode and decode compute, and the proof that any k of the
    n shards give the data back. */
module Erasure {
  import opened Numbers
  import opened Goldilocks
  import opened Polynomial
  import opened Interpolation
  import opened Transform
  import opened Bytes
  import Sequences

  datatype Shard = Shard(index: nat, data: seq<Element>)

  datatype DecodeError =
    | NotPowerOfTwo
    | TooFewShards
    | NoShards
    | IndexOutOfRange(index: nat)
    | DuplicateIndex(index: nat)
    | GroupCountMismatch

  /** The three ways a call can end: a value, a reported error, or a panic (an index past the end of a vector). */
  datatype Outcome = Ok(bytes: seq<Byte>) | Err(error: DecodeError) | Panic

  datatype Fault = NoFault | Fault(error: DecodeError)

  const BYTES_PER_ELEMENT: nat := 7

  // ---------- bytes and field elements ----------

  lemma SevenBytesFit(b: seq<Byte>)
    requires |b| <= BYTES_PER_ELEMENT
    ensures FromLE(b) < P
  {
    Limits();
    LimitMonotone(|b|, 7);
  }

  lemma {:induction false} LimitMonotone(a: nat, b: nat)
    requires a <= b
    ensures Limit(a) <= Limit(b)
  {
    if a < b {
      LimitMonotone(a, b - 1);
    }
  }

  function Pack(data: seq<Byte>): (e: seq<Element>)
    ensures |e| == (|data| + 6) / 7
  {
    if data == [] then []
    else
      var chunk := if |data| <= 7 then data else data[..7];
      SevenBytesFit(chunk);
      [FromLE(chunk)] + Pack(data[|chunk|..])
  }

  function Unpack(elements: seq<Element>): (b: seq<Byte>)
    ensures |b| == 7 * |elements|
  {
    if elements == [] then [] else ToLE(elements[0], 7) + Unpack(elements[1..])
  }

  function Truncate(b: seq<Byte>, len: nat): seq<Byte> {
    if len <= |b| then b[..len] else b
  }

  lemma {:induction false} UnpackAppend(a: seq<Element>, b: seq<Element>)
    ensures Unpack(a + b) == Unpack(a) + Unpack(b)
  {
    if a == [] {
      assert a + b == b;
    } else {
      assert (a + b)[1..] == a[1..] + b;
      UnpackAppend(a[1..], b);
    }
  }

  /** Unpacking gives the packed bytes back, followed by padding only. */
  lemma {:induction false} UnpackPack(data: seq<Byte>)
    ensures |data| <= |Unpack(Pack(data))| && Unpack(Pack(data))[..|data|] == data
  {
    hide ToLE, FromLE, ZeroBytes, Limit;
    if data == [] {
    } else {
      var chunk := if |data| <= 7 then data else data[..7];
      var rest := data[|chunk|..];
      UnpackPack(rest);
      SevenBytesFit(chunk);
      ToLEFromLE(chunk, 7);
      var e: Element := FromLE(chunk);
      assert Pack(data) == [e] + Pack(rest);
      assert Unpack(Pack(data)) == (chunk + ZeroBytes(7 - |chunk|)) + Unpack(Pack(rest)) by {
        assert Pack(data)[1..] == Pack(rest);
      }
      assert data == chunk + rest;
    }
  }

  lemma TruncatedUnpack(data: seq<Byte>, n: nat)
    ensures Truncate(Unpack(Pack(data) + ZeroElements(n)), |data|) == data
  {
    UnpackPack(data);
    UnpackAppend(Pack(data), ZeroElements(n));
  }

  // ---------- encoding ----------

  function GroupCount(length: nat, k: nat): nat
    requires k > 0
  {
    (length + k - 1) / k
  }

  lemma GroupCountCovers(length: nat, k: nat)
    requires k > 0
    ensures length <= GroupCount(length, k) * k
  {
    var g, r := (length + k - 1) / k, (length + k - 1) % k;
    assert length + k - 1 == k * g + r;
    assert k * g == g * k;
  }

  /** The elements of the data, padded with zeros to a multiple of k. */
  function Padded(data: seq<Byte>, k: nat): (e: seq<Element>)
    requires k > 0
    ensures |e| == GroupCount(|Pack(data)|, k) * k
  {
    GroupCountCovers(|Pack(data)|, k);
    Pack(data) + ZeroElements(GroupCount(|Pack(data)|, k) * k - |Pack(data)|)
  }

  lemma GroupBounds(g: nat, groups: nat, k: nat)
    requires g < groups
    ensures 0 <= g * k <= (g + 1) * k <= groups * k && (g + 1) * k == g * k + k
  {
    Distribute(g, 1, k);
    Distribute(g + 1, groups - g - 1, k);
  }

  lemma Distribute(a: nat, b: nat, k: nat)
    ensures (a + b) * k == a * k + b * k && a * k >= 0 && b * k >= 0
  {
  }

  function Group(elements: seq<Element>, k: nat, groups: nat, g: nat): (c: seq<Element>)
    requires |elements| == groups * k && g < groups
    ensures |c| == k
  {
    GroupBounds(g, groups, k);
    elements[g * k..(g + 1) * k]
  }

  function Codeword(data: seq<Byte>, k: nat, n: nat, g: nat): (v: seq<Element>)
    requires 1 <= k <= n && g < GroupCount(|Pack(data)|, k)
    ensures |v| == n
  {
    Ntt(Group(Padded(data, k), k, GroupCount(|Pack(data)|, k), g) + ZeroElements(n - k))
  }

  function EncodedShard(data: seq<Byte>, k: nat, n: nat, s: nat): Shard
    requires 1 <= k <= n && s < n
  {
    var groups := GroupCount(|Pack(data)|, k);
    Shard(s, seq(groups, g requires 0 <= g < groups => Codeword(data, k, n, g)[s]))
  }

  function EncodeShards(data: seq<Byte>, k: nat, n: nat): (shards: seq<Shard>)
    requires 1 <= k <= n
    ensures |shards| == n
    ensures forall s :: 0 <= s < n ==> shards[s] == EncodedShard(data, k, n, s)
  {
    seq(n, s requires 0 <= s < n => EncodedShard(data, k, n, s))
  }

  // ---------- decoding ----------

  predicate IsPowerOfTwo(n: nat) {
    n == 1 || (n > 1 && n % 2 == 0 && IsPowerOfTwo(n / 2))
  }

  lemma {:induction false} PowerOfTwoIsTransformSize(n: nat)
    requires IsPowerOfTwo(n) && n <= 0x1_0000_0000
    ensures IsTransformSize(n)
  {
    var m := Exponent(n);
    if m > 32 {
      Pow2Literal();
      PowAdd(2, 32, m - 32);
      assert Pow(2, m - 32) >= 2 by { assert Pow2(m - 33) >= 1; }
    }
  }

  lemma {:induction false} Exponent(n: nat) returns (m: nat)
    requires IsPowerOfTwo(n)
    ensures n == Pow2(m)
  {
    if n == 1 {
      m := 0;
    } else {
      m := Exponent(n / 2);
      m := m + 1;
    }
  }

  predicate SeenBefore(shards: seq<Shard>, i: nat)
    requires i < |shards|
  {
    exists j :: 0 <= j < i && shards[j].index == shards[i].index
  }

  predicate IsComplete(shards: seq<Shard>, n: nat) {
    && |shards| == n
    && forall i :: 0 <= i < n ==> shards[i].index < n && !SeenBefore(shards, i)
  }

  /** The first objection the interpolation path raises against the shards from position i on. */
  function FirstFault(shards: seq<Shard>, n: nat, groups: nat, i: nat): Fault
    requires i <= |shards|
    decreases |shards| - i
  {
    if i == |shards| then NoFault
    else if shards[i].index >= n then Fault(IndexOutOfRange(shards[i].index))
    else if SeenBefore(shards, i) then Fault(DuplicateIndex(shards[i].index))
    else if |shards[i].data| != groups then Fault(GroupCountMismatch)
    else FirstFault(shards, n, groups, i + 1)
  }

  function EvalPoints(shards: seq<Shard>, n: nat): (xs: seq<Element>)
    requires n > 0
    ensures |xs| == |shards|
  {
    seq(|shards|, i requires 0 <= i < |shards| => Reduce(Pow(Omega(n), shards[i].index)))
  }

  function Column(shards: seq<Shard>, g: nat): (v: seq<Element>)
    requires forall i :: 0 <= i < |shards| ==> g < |shards[i].data|
    ensures |v| == |shards|
  {
    seq(|shards|, i requires 0 <= i < |shards| => shards[i].data[g])
  }

  function InterpolatedGroups(shards: seq<Shard>, n: nat, groups: nat): seq<Element>
    requires n > 0 && forall i :: 0 <= i < |shards| ==> groups <= |shards[i].data|
  {
    if groups == 0 then []
    else InterpolatedGroups(shards, n, groups - 1) + Interpolate(EvalPoints(shards, n), Column(shards, groups - 1))
  }

  /** The length-n vector holding the g-th element of each of the first m shards at its index. */
  function Scatter(shards: seq<Shard>, n: nat, g: nat, m: nat): (v: seq<Element>)
    requires m <= |shards|
    requires forall i :: 0 <= i < |shards| ==> shards[i].index < n && g < |shards[i].data|
    ensures |v| == n
  {
    if m == 0 then ZeroElements(n)
    else Scatter(shards, n, g, m - 1)[shards[m - 1].index := shards[m - 1].data[g]]
  }

  function TransformedGroups(shards: seq<Shard>, k: nat, n: nat, groups: nat): seq<Element>
    requires 0 < n && k <= n
    requires forall i :: 0 <= i < |shards| ==> shards[i].index < n && groups <= |shards[i].data|
  {
    if groups == 0 then []
    else TransformedGroups(shards, k, n, groups - 1) + Intt(Scatter(shards, n, groups - 1, |shards|))[..k]
  }

  predicate LongEnough(shards: seq<Shard>, groups: nat) {
    forall i :: 0 <= i < |shards| ==> groups <= |shards[i].data|
  }

  lemma {:induction false} NoFaultMeans(shards: seq<Shard>, n: nat, groups: nat, i: nat)
    requires i <= |shards| && FirstFault(shards, n, groups, i) == NoFault
    ensures forall j :: i <= j < |shards| ==> shards[j].index < n && !SeenBefore(shards, j) && |shards[j].data| == groups
    decreases |shards| - i
  {
    if i < |shards| {
      NoFaultMeans(shards, n, groups, i + 1);
    }
  }

  function DecodeShards(shards: seq<Shard>, k: nat, n: nat, len: nat): Outcome {
    if !IsPowerOfTwo(n) then Err(NotPowerOfTwo)
    else if |shards| < k then Err(TooFewShards)
    else if shards == [] then Err(NoShards)
    else
      var groups := |shards[0].data|;
      if IsComplete(shards, n) then
        if LongEnough(shards, groups) then Ok(Truncate(Unpack(TransformedGroups(shards, k, n, groups)), len))
        else Panic
      else
        var available := shards[..k];
        match FirstFault(available, n, groups, 0)
        case Fault(e) => Err(e)
        case NoFault =>
          NoFaultMeans(available, n, groups, 0);
          Ok(Truncate(Unpack(InterpolatedGroups(available, n, groups)), len))
  }

  // ---------- any k shards give the data back ----------

  ghost predicate DistinctIndices(shards: seq<Shard>) {
    forall i, j :: 0 <= i < j < |shards| ==> shards[i].index != shards[j].index
  }

  /** Every shard is the one that encoding the data put at its index. */
  ghost predicate EncodedFrom(shards: seq<Shard>, data: seq<Byte>, k: nat, n: nat)
    requires 1 <= k <= n
  {
    forall i :: 0 <= i < |shards| ==> shards[i].index < n && shards[i] == EncodedShard(data, k, n, shards[i].index)
  }

  lemma EvalPointsDistinct(shards: seq<Shard>, n: nat)
    requires IsTransformSize(n) && n > 0 && DistinctIndices(shards)
    requires forall i :: 0 <= i < |shards| ==> shards[i].index < n
    ensures DistinctPoints(EvalPoints(shards, n))
  {
    var xs := EvalPoints(shards, n);
    forall i, j | 0 <= i < j < |xs|
      ensures !Cong(xs[i], xs[j], P)
    {
      var a, b := shards[i].index, shards[j].index;
      var w := Omega(n);
      if a < b { OmegaPowersDistinct(n, a, b); } else { OmegaPowersDistinct(n, b, a); }
      CongSameMod(Pow(w, a), Pow(w, b), P);
      CongSameMod(Pow(w, b), Pow(w, a), P);
      CongSameMod(xs[i], xs[j], P);
      ReduceFixed(xs[i]);
      ReduceFixed(xs[j]);
    }
  }

  /** A shard's element of group g is the group's polynomial evaluated at the shard's point. */
  lemma CodewordValue(data: seq<Byte>, k: nat, n: nat, g: nat, s: nat)
    requires 1 <= k <= n && g < GroupCount(|Pack(data)|, k) && s < n
    ensures Cong(Codeword(data, k, n, g)[s],
                 Eval(Group(Padded(data, k), k, GroupCount(|Pack(data)|, k), g), Reduce(Pow(Omega(n), s))), P)
  {
    PaddedNttValue(Group(Padded(data, k), k, GroupCount(|Pack(data)|, k), g), n, s);
  }

  lemma PaddedNttValue(c: seq<Element>, n: nat, s: nat)
    requires |c| <= n && s < n
    ensures Cong(Ntt(c + ZeroElements(n - |c|))[s], Eval(c, Reduce(Pow(Omega(n), s))), P)
  {
    hide Eval, Pow, Omega;
    var x := Pow(Omega(n), s);
    assert c + ZeroElements(n - |c|) == c + Zeros(n - |c|);
    EvalPadded(c, n - |c|, x);
    CongMod(Eval(c, x), P);
    CongMod(x, P);
    forall i | 0 <= i < |c|
      ensures Cong(c[i], c[i], P)
    {
      CongRefl(c[i], P);
    }
    EvalCongruent(c, c, x, Reduce(x));
    CongTrans(Reduce(Eval(c, x)), Eval(c, x), Eval(c, Reduce(x)), P);
  }

  lemma GroupRecovered(shards: seq<Shard>, data: seq<Byte>, k: nat, n: nat, g: nat)
    requires IsTransformSize(n) && 1 <= k <= n && |shards| == k
    requires DistinctIndices(shards) && EncodedFrom(shards, data, k, n)
    requires g < GroupCount(|Pack(data)|, k)
    ensures Interpolate(EvalPoints(shards, n), Column(shards, g))
         == Group(Padded(data, k), k, GroupCount(|Pack(data)|, k), g)
  {
    var c := Group(Padded(data, k), k, GroupCount(|Pack(data)|, k), g);
    var xs, vs := EvalPoints(shards, n), Column(shards, g);
    EvalPointsDistinct(shards, n);
    forall m | 0 <= m < |xs|
      ensures Cong(vs[m], Eval(c, xs[m]), P)
    {
      CodewordValue(data, k, n, g, shards[m].index);
    }
    InterpolateRecovers(c, xs, vs);
  }

  lemma GroupsJoin(elements: seq<Element>, k: nat, groups: nat, g: nat)
    requires |elements| == groups * k && g < groups
    ensures 0 <= g * k <= (g + 1) * k <= |elements|
    ensures elements[..g * k] + Group(elements, k, groups, g) == elements[..(g + 1) * k]
  {
    GroupBounds(g, groups, k);
  }

  lemma {:induction false} InterpolationRecovers(shards: seq<Shard>, data: seq<Byte>, k: nat, n: nat, g: nat)
    requires IsTransformSize(n) && 1 <= k <= n && |shards| == k
    requires DistinctIndices(shards) && EncodedFrom(shards, data, k, n)
    requires g <= GroupCount(|Pack(data)|, k)
    ensures 0 <= g * k <= |Padded(data, k)|
    ensures InterpolatedGroups(shards, n, g) == Padded(data, k)[..g * k]
  {
    hide Pack, Padded, GroupCount, Group, EncodedFrom, DistinctIndices, Interpolate, EvalPoints, Column, IsTransformSize;
    if g == 0 {
      assert 0 * k == 0;
    } else {
      InterpolationRecovers(shards, data, k, n, g - 1);
      GroupRecovered(shards, data, k, n, g - 1);
      GroupsJoin(Padded(data, k), k, GroupCount(|Pack(data)|, k), g - 1);
    }
  }

  lemma {:induction false} ScatterAt(shards: seq<Shard>, n: nat, g: nat, m: nat, i: nat)
    requires i < m <= |shards| && DistinctIndices(shards)
    requires forall i :: 0 <= i < |shards| ==> shards[i].index < n && g < |shards[i].data|
    ensures Scatter(shards, n, g, m)[shards[i].index] == shards[i].data[g]
  {
    if i < m - 1 {
      ScatterAt(shards, n, g, m - 1, i);
      assert shards[i].index != shards[m - 1].index;
    }
  }

  /** With all n distinct indices present, every position is written by some shard. */
  lemma EveryIndexPresent(shards: seq<Shard>, n: nat, s: nat) returns (i: nat)
    requires |shards| == n && s < n && DistinctIndices(shards)
    requires forall i :: 0 <= i < n ==> shards[i].index < n
    ensures i < n && shards[i].index == s
  {
    var indices := seq(n, i requires 0 <= i < n => shards[i].index);
    var all := seq(n, i requires 0 <= i < n => i);
    Sequences.NoDupCardinality(indices);
    Sequences.NoDupCardinality(all);
    assert forall x :: x in indices ==> 0 <= x < n && all[x] == x;
    Sequences.SubsetOfSameSize(Sequences.Elements(indices), Sequences.Elements(all));
    assert all[s] == s;
    assert s in indices;
    i :| 0 <= i < n && indices[i] == s;
  }

  lemma ScatterIsCodeword(shards: seq<Shard>, data: seq<Byte>, k: nat, n: nat, g: nat)
    requires 1 <= k <= n && |shards| == n && DistinctIndices(shards) && EncodedFrom(shards, data, k, n)
    requires g < GroupCount(|Pack(data)|, k)
    ensures Scatter(shards, n, g, n) == Codeword(data, k, n, g)
  {
    forall s | 0 <= s < n
      ensures Scatter(shards, n, g, n)[s] == Codeword(data, k, n, g)[s]
    {
      var i := EveryIndexPresent(shards, n, s);
      ScatterAt(shards, n, g, n, i);
    }
  }

  lemma CodewordIsTransform(data: seq<Byte>, k: nat, n: nat, g: nat)
    requires 1 <= k <= n && g < GroupCount(|Pack(data)|, k)
    ensures Codeword(data, k, n, g)
         == Ntt(Group(Padded(data, k), k, GroupCount(|Pack(data)|, k), g) + ZeroElements(n - k))
  {
  }

  lemma {:induction false} TransformRecovers(shards: seq<Shard>, data: seq<Byte>, k: nat, n: nat, g: nat)
    requires IsTransformSize(n) && 1 <= k <= n && |shards| == n
    requires DistinctIndices(shards) && EncodedFrom(shards, data, k, n)
    requires g <= GroupCount(|Pack(data)|, k)
    ensures 0 <= g * k <= |Padded(data, k)|
    ensures TransformedGroups(shards, k, n, g) == Padded(data, k)[..g * k]
  {
    hide Pack, Padded, GroupCount, Group, EncodedFrom, DistinctIndices, IsTransformSize, Scatter, Codeword, Ntt, Intt;
    if g == 0 {
      assert 0 * k == 0;
    } else {
      TransformRecovers(shards, data, k, n, g - 1);
      ScatterIsCodeword(shards, data, k, n, g - 1);
      var c := Group(Padded(data, k), k, GroupCount(|Pack(data)|, k), g - 1);
      CodewordIsTransform(data, k, n, g - 1);
      InttNtt(c + ZeroElements(n - k));
      assert (c + ZeroElements(n - k))[..k] == c;
      GroupsJoin(Padded(data, k), k, GroupCount(|Pack(data)|, k), g - 1);
    }
  }

  lemma {:induction false} NoFaultIfDistinct(shards: seq<Shard>, n: nat, groups: nat, i: nat)
    requires i <= |shards| && DistinctIndices(shards)
    requires forall j :: 0 <= j < |shards| ==> shards[j].index < n && |shards[j].data| == groups
    ensures FirstFault(shards, n, groups, i) == NoFault
    decreases |shards| - i
  {
    if i < |shards| {
      NoFaultIfDistinct(shards, n, groups, i + 1);
    }
  }

  /** All n shards, in any order: the inverse transform gives the padded elements back. */
  lemma CompletePathDecodes(shards: seq<Shard>, data: seq<Byte>, k: nat, n: nat)
    requires IsPowerOfTwo(n) && n <= 0x1_0000_0000 && 1 <= k <= n
    requires |shards| >= k && DistinctIndices(shards) && EncodedFrom(shards, data, k, n) && IsComplete(shards, n)
    ensures |shards| == n
    ensures TransformedGroups(shards, k, n, GroupCount(|Pack(data)|, k)) == Padded(data, k)
  {
    PowerOfTwoIsTransformSize(n);
    hide TransformedGroups, Pack, EncodedFrom, DistinctIndices, GroupCount, IsPowerOfTwo, Padded, IsTransformSize;
    TransformRecovers(shards, data, k, n, GroupCount(|Pack(data)|, k));
    WholePrefix(Padded(data, k), GroupCount(|Pack(data)|, k) * k);
  }

  /** Any k shards: interpolation gives the padded elements back. */
  lemma InterpolationPathDecodes(available: seq<Shard>, data: seq<Byte>, k: nat, n: nat)
    requires IsPowerOfTwo(n) && n <= 0x1_0000_0000 && 1 <= k <= n
    requires |available| == k && DistinctIndices(available) && EncodedFrom(available, data, k, n)
    ensures InterpolatedGroups(available, n, GroupCount(|Pack(data)|, k)) == Padded(data, k)
  {
    PowerOfTwoIsTransformSize(n);
    hide InterpolatedGroups, Pack, EncodedFrom, DistinctIndices, GroupCount, IsPowerOfTwo, Padded, IsTransformSize;
    InterpolationRecovers(available, data, k, n, GroupCount(|Pack(data)|, k));
    WholePrefix(Padded(data, k), GroupCount(|Pack(data)|, k) * k);
  }

  lemma WholePrefix(s: seq<Element>, n: nat)
    requires n == |s|
    ensures s[..n] == s
  {
  }


  /** A list of encoded shards decodes to the data exactly when its first k are different shards. */
  lemma EncodedShardsDecodeIff(shards: seq<Shard>, data: seq<Byte>, k: nat, n: nat)
    requires IsPowerOfTwo(n) && n <= 0x1_0000_0000 && 1 <= k <= n
    requires |shards| >= k && EncodedFrom(shards, data, k, n)
    ensures DecodeShards(shards, k, n, |data|) == Ok(data) <==> DistinctIndices(shards[..k])
  {
    CompleteIsDistinct(shards, n);
    if DistinctIndices(shards[..k]) {
      FirstKDecode(shards, data, k, n);
    } else {
      var i: nat, j: nat :| i < j < k && shards[..k][i].index == shards[..k][j].index;
      assert shards[i].index == shards[j].index && SeenBefore(shards, j);
      BadIndexIsReported(shards, k, n, |data|, j);
    }
  }

  lemma CompleteIsDistinct(shards: seq<Shard>, n: nat)
    ensures IsComplete(shards, n) ==> DistinctIndices(shards)
  {
    if IsComplete(shards, n) {
      forall i: nat, j: nat | i < j < |shards|
        ensures shards[i].index != shards[j].index
      {
        assert !SeenBefore(shards, j);
      }
    }
  }

  lemma FirstKDecode(shards: seq<Shard>, data: seq<Byte>, k: nat, n: nat)
    requires IsPowerOfTwo(n) && n <= 0x1_0000_0000 && 1 <= k <= n
    requires |shards| >= k && DistinctIndices(shards[..k]) && EncodedFrom(shards, data, k, n)
    ensures DecodeShards(shards, k, n, |data|) == Ok(data)
  {
    CompleteIsDistinct(shards, n);
    hide Pack, Unpack, Truncate, TransformedGroups, InterpolatedGroups, GroupCount, Codeword, IsPowerOfTwo;
    var groups := GroupCount(|Pack(data)|, k);
    PaddedUnpacks(data, k);
    hide Padded;
    assert shards[0] == EncodedShard(data, k, n, shards[0].index);
    if IsComplete(shards, n) {
      CompletePathDecodes(shards, data, k, n);
    } else {
      NoFaultIfDistinct(shards[..k], n, groups, 0);
      InterpolationPathDecodes(shards[..k], data, k, n);
    }
  }

  /** The theorem the module is for: whichever shards survive, in whichever order, k of them suffice. */
  lemma AnyKShardsDecode(shards: seq<Shard>, data: seq<Byte>, k: nat, n: nat)
    requires IsPowerOfTwo(n) && n <= 0x1_0000_0000 && 1 <= k <= n
    requires |shards| >= k && DistinctIndices(shards) && EncodedFrom(shards, data, k, n)
    ensures DecodeShards(shards, k, n, |data|) == Ok(data)
  {
    FirstKDecode(shards, data, k, n);
  }

  lemma PaddedUnpacks(data: seq<Byte>, k: nat)
    requires k > 0
    ensures Truncate(Unpack(Padded(data, k)), |data|) == data
  {
    GroupCountCovers(|Pack(data)|, k);
    TruncatedUnpack(data, |Padded(data, k)| - |Pack(data)|);
  }


  /** Both decoding paths read the same data out of a full set of encoded shards. */
  lemma PathsAgree(shards: seq<Shard>, data: seq<Byte>, k: nat, n: nat)
    requires IsPowerOfTwo(n) && n <= 0x1_0000_0000 && 1 <= k <= n
    requires |shards| == n && DistinctIndices(shards) && EncodedFrom(shards, data, k, n)
    ensures TransformedGroups(shards, k, n, GroupCount(|Pack(data)|, k))
         == InterpolatedGroups(shards[..k], n, GroupCount(|Pack(data)|, k))
  {
    hide Pack, TransformedGroups, InterpolatedGroups, GroupCount, IsPowerOfTwo, EncodedShard, Padded;
    CompletePathDecodes(shards, data, k, n);
    InterpolationPathDecodes(shards[..k], data, k, n);
  }

  /** Exactly when the first k shards raise no objection (or all n are there) does decoding return bytes. */
  lemma DecodesIff(shards: seq<Shard>, k: nat, n: nat, len: nat)
    requires IsPowerOfTwo(n) && |shards| >= k && shards != []
    ensures DecodeShards(shards, k, n, len).Ok? <==>
            var groups := |shards[0].data|;
            if IsComplete(shards, n) then LongEnough(shards, groups)
            else forall i :: 0 <= i < k ==> shards[i].index < n && !SeenBefore(shards, i) && |shards[i].data| == groups
  {
    var groups, available := |shards[0].data|, shards[..k];
    if !IsComplete(shards, n) {
      assert forall i :: 0 <= i < k ==> available[i] == shards[i] && (SeenBefore(available, i) <==> SeenBefore(shards, i)) by {
        forall i | 0 <= i < k ensures SeenBefore(available, i) <==> SeenBefore(shards, i) {
          assert forall j :: 0 <= j < i ==> available[j] == shards[j];
        }
      }
      if FirstFault(available, n, groups, 0) == NoFault {
        NoFaultMeans(available, n, groups, 0);
      } else {
        FaultMeans(available, n, groups, 0);
      }
    }
  }

  lemma {:induction false} FaultMeans(shards: seq<Shard>, n: nat, groups: nat, i: nat)
    requires i <= |shards| && FirstFault(shards, n, groups, i) != NoFault
    ensures exists j :: i <= j < |shards| && (shards[j].index >= n || SeenBefore(shards, j) || |shards[j].data| != groups)
    decreases |shards| - i
  {
    if shards[i].index >= n || SeenBefore(shards, i) || |shards[i].data| != groups {
    } else {
      FaultMeans(shards, n, groups, i + 1);
    }
  }

  /** A repeated or out-of-range index among the k shards used is reported, never interpolated through. */
  lemma BadIndexIsReported(shards: seq<Shard>, k: nat, n: nat, len: nat, i: nat)
    requires IsPowerOfTwo(n) && |shards| >= k && shards != [] && i < k
    requires shards[i].index >= n || SeenBefore(shards, i)
    ensures DecodeShards(shards, k, n, len).Err?
  {
    DecodesIff(shards, k, n, len);
    assert !IsComplete(shards, n);
  }

  // ---------- the algorithms ----------

  method ChunkValue(chunk: seq<Byte>) returns (val: nat)
    ensures val == FromLE(chunk)
  {
    val := 0;
    var scale: nat := 1;
    var i := 0;
    while i < |chunk|
      invariant 0 <= i <= |chunk|
      invariant scale == Limit(i) && val == FromLE(chunk[..i])
    {
      FromLESnoc(chunk[..i], chunk[i]);
      assert chunk[..i + 1] == chunk[..i] + [chunk[i]];
      val := val + chunk[i] * scale;
      scale := 256 * scale;
      i := i + 1;
    }
    assert chunk[..|chunk|] == chunk;
  }

  method BytesToElements(data: seq<Byte>) returns (out: seq<Element>)
    ensures out == Pack(data)
  {
    out := [];
    var offset := 0;
    while offset < |data|
      invariant 0 <= offset <= |data|
      invariant Pack(data) == out + Pack(data[offset..])
    {
      var end := if offset + 7 <= |data| then offset + 7 else |data|;
      hide Pack, FromLE;
      var chunk := data[offset..end];
      var val := ChunkValue(chunk);
      PackAt(data, offset, end);
      out := out + [val];
      offset := end;
    }
  }

  lemma PackAt(data: seq<Byte>, offset: nat, end: nat)
    requires offset < |data| && end == (if offset + 7 <= |data| then offset + 7 else |data|)
    ensures FromLE(data[offset..end]) < P
    ensures Pack(data[offset..]) == [FromLE(data[offset..end])] + Pack(data[end..])
  {
    hide Pack, FromLE;
    PackStep(data[offset..], end - offset);
    assert data[offset..][..end - offset] == data[offset..end];
    assert data[offset..][end - offset..] == data[end..];
  }

  lemma PackStep(data: seq<Byte>, size: nat)
    requires data != [] && size == (if |data| <= 7 then |data| else 7)
    ensures FromLE(data[..size]) < P
    ensures Pack(data) == [FromLE(data[..size])] + Pack(data[size..])
  {
    assert |data| <= 7 ==> data[..size] == data;
    SevenBytesFit(data[..size]);
  }

  lemma {:induction false} FromLESnoc(b: seq<Byte>, x: Byte)
    ensures FromLE(b + [x]) == FromLE(b) + x * Limit(|b|)
  {
    if b == [] {
      assert FromLE([x]) == x + 256 * FromLE([]);
    } else {
      FromLESnoc(b[1..], x);
      assert (b + [x])[1..] == b[1..] + [x];
      assert 256 * (x * Limit(|b| - 1)) == x * (256 * Limit(|b| - 1));
    }
  }

  method ElementsToBytes(elements: seq<Element>, originalLen: nat) returns (out: seq<Byte>)
    ensures out == Truncate(Unpack(elements), originalLen)
  {
    out := [];
    var j := 0;
    while j < |elements|
      invariant 0 <= j <= |elements|
      invariant out == Unpack(elements[..j])
    {
      var val: nat := elements[j];
      var i := 0;
      ghost var before := out;
      while i < 7
        invariant 0 <= i <= 7
        invariant before + ToLE(elements[j], 7) == out + ToLE(val, 7 - i)
      {
        out := out + [val % 256];
        val := val / 256;
        i := i + 1;
      }
      assert out == before + ToLE(elements[j], 7);
      UnpackSnoc(elements[..j], elements[j]);
      assert elements[..j + 1] == elements[..j] + [elements[j]];
      j := j + 1;
    }
    assert elements[..|elements|] == elements;
    if originalLen < |out| {
      out := out[..originalLen];
    }
  }

  lemma UnpackSnoc(elements: seq<Element>, e: Element)
    ensures Unpack(elements + [e]) == Unpack(elements) + ToLE(e, 7)
  {
    UnpackAppend(elements, [e]);
    assert Unpack([e]) == ToLE(e, 7) + Unpack([e][1..]);
    assert [e][1..] == [];
  }

  /** The coefficient vector of group g, zero-filled to n entries. */
  method LoadGroup(padded: seq<Element>, k: nat, n: nat, numGroups: nat, g: nat) returns (poly: array<Element>)
    requires k <= n && |padded| == numGroups * k && g < numGroups
    ensures fresh(poly) && poly[..] == Group(padded, k, numGroups, g) + ZeroElements(n - k)
  {
    GroupBounds(g, numGroups, k);
    ghost var group := Group(padded, k, numGroups, g);
    poly := new Element[n](_ => 0);
    var i := 0;
    while i < k
      invariant 0 <= i <= k
      invariant poly[..] == group[..i] + ZeroElements(n - i)
    {
      poly[i] := padded[g * k + i];
      i := i + 1;
    }
    assert group[..k] == group;
  }

  method PushEvaluations(columns: array<seq<Element>>, evaluations: seq<Element>)
    requires columns.Length == |evaluations|
    modifies columns
    ensures forall s :: 0 <= s < columns.Length ==> columns[s] == old(columns[s]) + [evaluations[s]]
  {
    var s := 0;
    while s < columns.Length
      invariant 0 <= s <= columns.Length
      invariant forall t :: 0 <= t < s ==> columns[t] == old(columns[t]) + [evaluations[t]]
      invariant forall t :: s <= t < columns.Length ==> columns[t] == old(columns[t])
    {
      columns[s] := columns[s] + [evaluations[s]];
      s := s + 1;
    }
  }

  method Encode(data: seq<Byte>, k: nat, n: nat) returns (shards: seq<Shard>)
    requires 1 <= k <= n && IsPowerOfTwo(n)
    ensures shards == EncodeShards(data, k, n)
  {
    hide Codeword, Padded, Pack;
    var elements := BytesToElements(data);
    var numGroups := (|elements| + k - 1) / k;
    GroupCountCovers(|elements|, k);
    var padded := elements + ZeroElements(numGroups * k - |elements|);
    assert padded == Padded(data, k) by { PaddedIs(data, k); }
    var columns := new seq<Element>[n](_ => []);
    var g := 0;
    while g < numGroups
      invariant 0 <= g <= numGroups
      invariant forall s :: 0 <= s < n ==> columns[s] == EncodedShard(data, k, n, s).data[..g]
    {
      var poly := LoadGroup(padded, k, n, numGroups, g);
      var evaluations := Ntt(poly[..]);
      CodewordIs(data, k, n, g);
      PushEvaluations(columns, evaluations);
      g := g + 1;
    }
    shards := [];
    var s := 0;
    while s < n
      invariant 0 <= s <= n && |shards| == s
      invariant forall t :: 0 <= t < s ==> shards[t] == EncodedShard(data, k, n, t)
    {
      shards := shards + [Shard(s, columns[s])];
      s := s + 1;
    }
  }

  lemma PaddedIs(data: seq<Byte>, k: nat)
    requires k > 0
    ensures |Pack(data)| <= GroupCount(|Pack(data)|, k) * k
    ensures Padded(data, k) == Pack(data) + ZeroElements(GroupCount(|Pack(data)|, k) * k - |Pack(data)|)
  {
    GroupCountCovers(|Pack(data)|, k);
  }

  lemma CodewordIs(data: seq<Byte>, k: nat, n: nat, g: nat)
    requires 1 <= k <= n && g < GroupCount(|Pack(data)|, k)
    ensures Codeword(data, k, n, g)
         == Ntt(Group(Padded(data, k), k, GroupCount(|Pack(data)|, k), g) + ZeroElements(n - k))
  {
  }

  method CheckComplete(shards: seq<Shard>, n: nat) returns (complete: bool)
    ensures complete == IsComplete(shards, n)
  {
    if |shards| != n {
      return false;
    }
    var seen := new bool[n](_ => false);
    var i := 0;
    while i < |shards|
      invariant 0 <= i <= |shards|
      invariant forall j :: 0 <= j < i ==> shards[j].index < n && !SeenBefore(shards, j)
      invariant forall x :: 0 <= x < n ==> (seen[x] <==> exists j :: 0 <= j < i && shards[j].index == x)
    {
      if shards[i].index >= n || seen[shards[i].index] {
        assert shards[i].index >= n || SeenBefore(shards, i);
        return false;
      }
      seen[shards[i].index] := true;
      i := i + 1;
    }
    return true;
  }

  /** The objections of the interpolation path, found in one pass with a table of seen indices. */
  method CheckShards(available: seq<Shard>, n: nat, groups: nat) returns (fault: Fault)
    ensures fault == FirstFault(available, n, groups, 0)
  {
    var seen := new bool[n](_ => false);
    var i := 0;
    while i < |available|
      invariant 0 <= i <= |available|
      invariant FirstFault(available, n, groups, 0) == FirstFault(available, n, groups, i)
      invariant forall x :: 0 <= x < n ==> (seen[x] <==> exists j :: 0 <= j < i && available[j].index == x)
    {
      var s := available[i];
      if s.index >= n {
        return Fault(IndexOutOfRange(s.index));
      }
      if seen[s.index] {
        return Fault(DuplicateIndex(s.index));
      }
      seen[s.index] := true;
      if |s.data| != groups {
        return Fault(GroupCountMismatch);
      }
      i := i + 1;
    }
    return NoFault;
  }

  method DecodeFull(shards: seq<Shard>, k: nat, n: nat, numGroups: nat, originalLen: nat) returns (out: seq<Byte>)
    requires 1 <= n && k <= n && LongEnough(shards, numGroups)
    requires forall i :: 0 <= i < |shards| ==> shards[i].index < n
    ensures out == Truncate(Unpack(TransformedGroups(shards, k, n, numGroups)), originalLen)
  {
    var elements := [];
    var g := 0;
    while g < numGroups
      invariant 0 <= g <= numGroups
      invariant elements == TransformedGroups(shards, k, n, g)
    {
      var poly := new Element[n](_ => 0);
      var i := 0;
      while i < |shards|
        invariant 0 <= i <= |shards|
        invariant poly[..] == Scatter(shards, n, g, i)
      {
        poly[shards[i].index] := shards[i].data[g];
        i := i + 1;
      }
      elements := elements + Intt(poly[..])[..k];
      g := g + 1;
    }
    out := ElementsToBytes(elements, originalLen);
  }

  method Decode(shards: seq<Shard>, k: nat, n: nat, originalLen: nat) returns (r: Outcome)
    ensures r == DecodeShards(shards, k, n, originalLen)
  {
    if !IsPowerOfTwo(n) {
      return Err(NotPowerOfTwo);
    }
    if |shards| < k {
      return Err(TooFewShards);
    }
    if shards == [] {
      return Err(NoShards);
    }
    var numGroups := |shards[0].data|;
    var complete := CheckComplete(shards, n);
    if complete {
      if !LongEnough(shards, numGroups) {
        return Panic;
      }
      var bytes := DecodeFull(shards, k, n, numGroups, originalLen);
      return Ok(bytes);
    }
    var available := shards[..k];
    var fault := CheckShards(available, n, numGroups);
    if fault.Fault? {
      return Err(fault.error);
    }
    NoFaultMeans(available, n, numGroups, 0);
    var points := EvalPoints(available, n);
    var elements := [];
    var g := 0;
    while g < numGroups
      invariant 0 <= g <= numGroups
      invariant elements == InterpolatedGroups(available, n, g)
    {
      var coefficients := LagrangeInterpolate(points, Column(available, g));
      elements := elements + coefficients;
      g := g + 1;
    }
    var bytes := ElementsToBytes(elements, originalLen);
    return Ok(bytes);
  }
}
