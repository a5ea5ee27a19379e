/** Data availability sampling (src/das.rs): commitments to encoded shards, and why enough verified samples are the data. */
module Das {
  import opened Goldilocks
  import opened Bytes
  import opened Erasure
  import opened Chunks
  import Sequences

  const DIGEST_LENGTH: nat := 32

  datatype Commitment = Commitment(shardRoots: seq<Digest>, root: Digest, k: nat, n: nat, originalLen: nat)

  datatype Sample = Sample(shardIndex: nat, shardData: seq<Byte>, shardRoot: Digest)

  datatype Response = Withheld | Answered(sample: Sample)

  datatype Availability = Available | Unavailable

  function Concat(roots: seq<Digest>): seq<Byte> {
    if roots == [] then [] else roots[0] + Concat(roots[1..])
  }

  /** Root after root, 32 bytes each. */
  lemma {:induction false} ConcatAt(roots: seq<Digest>, i: nat)
    requires FixedLength(roots) && i < |roots|
    ensures |Concat(roots)| == 32 * |roots| && Concat(roots)[32 * i..32 * i + 32] == roots[i]
  {
    if |roots| > 1 {
      ConcatAt(roots[1..], if i > 0 then i - 1 else 0);
    } else {
      assert Concat(roots[1..]) == [];
    }
    if i > 0 {
      assert Concat(roots)[32 * i..32 * i + 32] == Concat(roots[1..])[32 * (i - 1)..32 * (i - 1) + 32];
    }
  }

  function GlobalRoot(h: Hash, roots: seq<Digest>): Digest {
    h(Concat(roots))
  }

  function ShardRoots(h: Hash, shards: seq<Shard>): (r: seq<Digest>)
    ensures |r| == |shards|
  {
    seq(|shards|, i requires 0 <= i < |shards| => h(ElementBytes(shards[i].data)))
  }

  function Commit(h: Hash, shards: seq<Shard>, k: nat, originalLen: nat): Commitment {
    var roots := ShardRoots(h, shards);
    Commitment(roots, GlobalRoot(h, roots), k, |shards|, originalLen)
  }

  function TakeSample(h: Hash, shard: Shard): Sample {
    var bytes := ElementBytes(shard.data);
    Sample(shard.index, bytes, h(bytes))
  }

  predicate VerifySample(h: Hash, s: Sample, c: Commitment) {
    && s.shardIndex < c.n
    && s.shardIndex < |c.shardRoots|
    && GlobalRoot(h, c.shardRoots) == c.root
    && h(s.shardData) == c.shardRoots[s.shardIndex]
  }

  method GlobalRootLoop(h: Hash, shardRoots: seq<Digest>) returns (root: Digest)
    ensures root == GlobalRoot(h, shardRoots)
  {
    var bytes: seq<Byte> := [];
    var i := 0;
    while i < |shardRoots|
      invariant 0 <= i <= |shardRoots|
      invariant Concat(shardRoots) == bytes + Concat(shardRoots[i..])
    {
      bytes := bytes + shardRoots[i];
      assert shardRoots[i..][1..] == shardRoots[i + 1..];
      i := i + 1;
    }
    assert bytes == Concat(shardRoots);
    root := h(bytes);
  }

  function Passed(h: Hash, responses: seq<Response>, c: Commitment): (passed: seq<Sample>)
    ensures forall i :: 0 <= i < |passed| ==> VerifySample(h, passed[i], c) && Answered(passed[i]) in responses
  {
    if responses == [] then []
    else
      var rest := Passed(h, responses[1..], c);
      if responses[0].Answered? && VerifySample(h, responses[0].sample, c) then [responses[0].sample] + rest else rest
  }

  method DecideAvailability(h: Hash, responses: seq<Response>, c: Commitment, minVerified: nat) returns (verdict: Availability)
    ensures verdict.Available? <==> |Passed(h, responses, c)| >= minVerified
  {
    var passed, i := 0, 0;
    while i < |responses|
      invariant 0 <= i <= |responses|
      invariant |Passed(h, responses, c)| == passed + |Passed(h, responses[i..], c)|
    {
      assert responses[i..][1..] == responses[i + 1..];
      if responses[i].Answered? && VerifySample(h, responses[i].sample, c) {
        passed := passed + 1;
      }
      i := i + 1;
    }
    return if passed >= minVerified then Available else Unavailable;
  }

  // ---------- what a verified sample is ----------

  ghost predicate FixedLength(roots: seq<Digest>) {
    forall i :: 0 <= i < |roots| ==> |roots[i]| == DIGEST_LENGTH
  }

  lemma {:induction false} ConcatLength(roots: seq<Digest>)
    requires FixedLength(roots)
    ensures |Concat(roots)| == DIGEST_LENGTH * |roots|
  {
    if roots != [] {
      ConcatLength(roots[1..]);
    }
  }

  lemma {:induction false} ConcatInjective(a: seq<Digest>, b: seq<Digest>)
    requires FixedLength(a) && FixedLength(b) && Concat(a) == Concat(b)
    ensures a == b
  {
    ConcatLength(a);
    ConcatLength(b);
    if a != [] {
      assert a[0] == Concat(a)[..DIGEST_LENGTH] && Concat(a[1..]) == Concat(a)[DIGEST_LENGTH..];
      assert b[0] == Concat(b)[..DIGEST_LENGTH] && Concat(b[1..]) == Concat(b)[DIGEST_LENGTH..];
      ConcatInjective(a[1..], b[1..]);
      assert a == [a[0]] + a[1..] && b == [b[0]] + b[1..];
    }
  }

  /** The byte strings whose hashes the argument compares. */
  ghost function HashedInputs(shards: seq<Shard>, h: Hash, c: Commitment, samples: seq<Sample>): set<seq<Byte>> {
    (set i | 0 <= i < |shards| :: ElementBytes(shards[i].data))
    + (set i | 0 <= i < |samples| :: samples[i].shardData)
    + {Concat(ShardRoots(h, shards)), Concat(c.shardRoots)}
  }

  /** Any commitment carrying the honest root holds the honest shard roots. */
  lemma RootBinds(h: Hash, shards: seq<Shard>, k: nat, len: nat, c: Commitment, inputs: set<seq<Byte>>)
    requires c.root == Commit(h, shards, k, len).root && GlobalRoot(h, c.shardRoots) == c.root
    requires FixedLength(c.shardRoots) && FixedLength(ShardRoots(h, shards))
    requires Concat(ShardRoots(h, shards)) in inputs && Concat(c.shardRoots) in inputs && CollisionFreeOn(h, inputs)
    ensures c.shardRoots == ShardRoots(h, shards)
  {
    ConcatInjective(c.shardRoots, ShardRoots(h, shards));
  }

  /** Against a commitment with the honest root, a sample verifies exactly when its index is in range and it carries
      that shard's own bytes: forged data, forged indices and spliced shard roots all fail. */
  lemma VerifiesIff(h: Hash, shards: seq<Shard>, k: nat, len: nat, c: Commitment, s: Sample)
    requires c.root == Commit(h, shards, k, len).root
    requires FixedLength(c.shardRoots) && FixedLength(ShardRoots(h, shards))
    requires CollisionFreeOn(h, HashedInputs(shards, h, c, [s]))
    ensures VerifySample(h, s, c) <==>
            && s.shardIndex < c.n && s.shardIndex < |shards|
            && c.shardRoots == ShardRoots(h, shards)
            && s.shardData == ElementBytes(shards[s.shardIndex].data)
  {
    var inputs := HashedInputs(shards, h, c, [s]);
    assert [s][0] == s;
    assert s.shardData in inputs;
    if VerifySample(h, s, c) {
      RootBinds(h, shards, k, len, c, inputs);
      assert ElementBytes(shards[s.shardIndex].data) in inputs;
    }
  }

  /** Distinct verified samples are distinct encoded shards. */
  lemma SamplesAreShards(h: Hash, data: seq<Byte>, k: nat, n: nat, c: Commitment, samples: seq<Sample>)
    requires IsPowerOfTwo(n) && n <= 0x1_0000_0000 && 1 <= k <= n
    requires c.root == Commit(h, EncodeShards(data, k, n), k, |data|).root
    requires FixedLength(c.shardRoots) && FixedLength(ShardRoots(h, EncodeShards(data, k, n)))
    requires CollisionFreeOn(h, HashedInputs(EncodeShards(data, k, n), h, c, samples))
    requires forall i :: 0 <= i < |samples| ==> VerifySample(h, samples[i], c)
    ensures EncodedFrom(ReadShards(samples), data, k, n)
  {
    var shards := EncodeShards(data, k, n);
    var inputs := HashedInputs(shards, h, c, samples);
    forall i | 0 <= i < |samples|
      ensures samples[i].shardIndex < n && ReadShards(samples)[i] == EncodedShard(data, k, n, samples[i].shardIndex)
    {
      var s := samples[i];
      assert s.shardData in inputs;
      RootBinds(h, shards, k, |data|, c, inputs);
      assert ElementBytes(shards[s.shardIndex].data) in inputs;
      BytesElementsInverse(shards[s.shardIndex].data);
    }
  }

  function ReadShards(samples: seq<Sample>): (shards: seq<Shard>)
    ensures |shards| == |samples|
  {
    seq(|samples|, i requires 0 <= i < |samples| => BytesToShard(samples[i].shardIndex, samples[i].shardData))
  }

  ghost predicate DistinctSamples(samples: seq<Sample>) {
    forall i, j :: 0 <= i < j < |samples| ==> samples[i].shardIndex != samples[j].shardIndex
  }

  /** Any k verified samples with distinct indices decode to the committed data. */
  lemma VerifiedSamplesDecode(h: Hash, data: seq<Byte>, k: nat, n: nat, c: Commitment, samples: seq<Sample>)
    requires IsPowerOfTwo(n) && n <= 0x1_0000_0000 && 1 <= k <= n
    requires c.root == Commit(h, EncodeShards(data, k, n), k, |data|).root
    requires FixedLength(c.shardRoots) && FixedLength(ShardRoots(h, EncodeShards(data, k, n)))
    requires CollisionFreeOn(h, HashedInputs(EncodeShards(data, k, n), h, c, samples))
    requires |samples| >= k && DistinctSamples(samples)
    requires forall i :: 0 <= i < |samples| ==> VerifySample(h, samples[i], c)
    ensures DecodeShards(ReadShards(samples), k, n, |data|) == Ok(data)
  {
    SamplesAreShards(h, data, k, n, c, samples);
    AnyKShardsDecode(ReadShards(samples), data, k, n);
  }

  /** An honest responder is never rejected. */
  lemma HonestSampleVerifies(h: Hash, data: seq<Byte>, k: nat, n: nat, s: nat)
    requires 1 <= k <= n && s < n
    ensures VerifySample(h, TakeSample(h, EncodeShards(data, k, n)[s]), Commit(h, EncodeShards(data, k, n), k, |data|))
  {
    assert ShardRoots(h, EncodeShards(data, k, n))[s] == h(ElementBytes(EncodeShards(data, k, n)[s].data));
  }

  /** A round that passes at a threshold of k or more is recovered, from its answers in order, exactly when the first k
      passing answers are about different shards. */
  lemma AvailableMeansRecoverable(h: Hash, data: seq<Byte>, k: nat, n: nat, c: Commitment, responses: seq<Response>)
    requires IsPowerOfTwo(n) && n <= 0x1_0000_0000 && 1 <= k <= n
    requires c.root == Commit(h, EncodeShards(data, k, n), k, |data|).root
    requires FixedLength(c.shardRoots) && FixedLength(ShardRoots(h, EncodeShards(data, k, n)))
    requires CollisionFreeOn(h, HashedInputs(EncodeShards(data, k, n), h, c, Passed(h, responses, c)))
    requires |Passed(h, responses, c)| >= k
    ensures DecodeShards(ReadShards(Passed(h, responses, c)), k, n, |data|) == Ok(data)
       <==> DistinctSamples(Passed(h, responses, c)[..k])
  {
    SamplesDecodeIff(h, data, k, n, c, Passed(h, responses, c));
  }

  /** k or more verified samples decode to the committed data exactly when the first k are about different shards. */
  lemma SamplesDecodeIff(h: Hash, data: seq<Byte>, k: nat, n: nat, c: Commitment, samples: seq<Sample>)
    requires IsPowerOfTwo(n) && n <= 0x1_0000_0000 && 1 <= k <= n
    requires c.root == Commit(h, EncodeShards(data, k, n), k, |data|).root
    requires FixedLength(c.shardRoots) && FixedLength(ShardRoots(h, EncodeShards(data, k, n)))
    requires CollisionFreeOn(h, HashedInputs(EncodeShards(data, k, n), h, c, samples))
    requires |samples| >= k && forall i :: 0 <= i < |samples| ==> VerifySample(h, samples[i], c)
    ensures DecodeShards(ReadShards(samples), k, n, |data|) == Ok(data) <==> DistinctSamples(samples[..k])
  {
    SamplesAreShards(h, data, k, n, c, samples);
    EncodedShardsDecodeIff(ReadShards(samples), data, k, n);
    IndicesOfSamples(samples, k);
  }

  lemma IndicesOfSamples(samples: seq<Sample>, k: nat)
    requires k <= |samples|
    ensures DistinctIndices(ReadShards(samples)[..k]) <==> DistinctSamples(samples[..k])
  {
    hide BytesToShard;
    assert forall i :: 0 <= i < k ==> ReadShards(samples)[..k][i].index == samples[..k][i].shardIndex by {
      forall i | 0 <= i < k
        ensures ReadShards(samples)[..k][i].index == samples[..k][i].shardIndex
      {
        IndexOfSample(samples[i]);
      }
    }
  }

  lemma IndexOfSample(s: Sample)
    ensures BytesToShard(s.shardIndex, s.shardData).index == s.shardIndex
  {
  }

  // ---------- when some k of the passing answers decode ----------

  function IndexSet(samples: seq<Sample>): set<nat> {
    set s | s in samples :: s.shardIndex
  }

  lemma {:induction false} DistinctSamplesCount(samples: seq<Sample>)
    requires DistinctSamples(samples)
    ensures |IndexSet(samples)| == |samples|
  {
    if samples == [] {
      assert IndexSet(samples) == {};
    } else {
      var rest, s := samples[1..], samples[0];
      DistinctSamplesCount(rest);
      assert samples == [s] + rest;
      IndexSetCons(s, rest);
      assert s.shardIndex !in IndexSet(rest);
    }
  }

  lemma IndexSetCons(s: Sample, rest: seq<Sample>)
    ensures IndexSet([s] + rest) == IndexSet(rest) + {s.shardIndex}
  {
    assert forall t :: t in [s] + rest <==> t in rest || t == s;
  }

  lemma PrependDistinct(s: Sample, rest: seq<Sample>)
    requires DistinctSamples(rest) && s.shardIndex !in IndexSet(rest)
    ensures DistinctSamples([s] + rest)
  {
    assert forall j :: 0 <= j < |rest| ==> rest[j] in rest;
  }

  /** One sample for each of the indices. */
  lemma {:induction false} OneForEach(samples: seq<Sample>, indices: set<nat>) returns (picked: seq<Sample>)
    requires indices <= IndexSet(samples)
    ensures |picked| == |indices| && DistinctSamples(picked) && IndexSet(picked) == indices
    ensures forall s :: s in picked ==> s in samples
  {
    if indices == {} {
      picked := [];
    } else {
      var i :| i in indices;
      var rest := OneForEach(samples, indices - {i});
      var s :| s in samples && s.shardIndex == i;
      picked := [s] + rest;
      hide IndexSet, DistinctSamples;
      IndexSetCons(s, rest);
      PrependDistinct(s, rest);
      assert indices == (indices - {i}) + {i};
    }
  }

  ghost predicate DecodingChoice(h: Hash, data: seq<Byte>, k: nat, n: nat, samples: seq<Sample>, picked: seq<Sample>) {
    |picked| == k && (forall s :: s in picked ==> s in samples) && DecodeShards(ReadShards(picked), k, n, |data|) == Ok(data)
  }

  /** Some k of the passing answers decode to the data exactly when they are about at least k different shards. */
  lemma SomeKDecodeIff(h: Hash, data: seq<Byte>, k: nat, n: nat, c: Commitment, samples: seq<Sample>)
    requires IsPowerOfTwo(n) && n <= 0x1_0000_0000 && 1 <= k <= n
    requires c.root == Commit(h, EncodeShards(data, k, n), k, |data|).root
    requires FixedLength(c.shardRoots) && FixedLength(ShardRoots(h, EncodeShards(data, k, n)))
    requires CollisionFreeOn(h, HashedInputs(EncodeShards(data, k, n), h, c, samples))
    requires forall i :: 0 <= i < |samples| ==> VerifySample(h, samples[i], c)
    ensures (exists picked :: DecodingChoice(h, data, k, n, samples, picked)) <==> |IndexSet(samples)| >= k
  {
    hide DecodeShards, EncodeShards, VerifySample, HashedInputs, IndexSet, Commit;
    if picked :| DecodingChoice(h, data, k, n, samples, picked) {
      PickedInputs(h, EncodeShards(data, k, n), c, samples, picked);
      SamplesDecodeIff(h, data, k, n, c, picked);
      assert picked[..k] == picked;
      DistinctSamplesCount(picked);
      PickedIndices(samples, picked);
    }
    if |IndexSet(samples)| >= k {
      var indices := SubsetOfSize(IndexSet(samples), k);
      var picked := OneForEach(samples, indices);
      PickedInputs(h, EncodeShards(data, k, n), c, samples, picked);
      SamplesDecodeIff(h, data, k, n, c, picked);
      assert picked[..k] == picked;
      assert DecodingChoice(h, data, k, n, samples, picked);
    }
  }

  lemma PickedIndices(samples: seq<Sample>, picked: seq<Sample>)
    requires forall s :: s in picked ==> s in samples
    ensures |IndexSet(picked)| <= |IndexSet(samples)|
  {
    Sequences.SubsetSize(IndexSet(picked), IndexSet(samples));
  }

  lemma PickedInputs(h: Hash, shards: seq<Shard>, c: Commitment, samples: seq<Sample>, picked: seq<Sample>)
    requires (forall s :: s in picked ==> s in samples) && CollisionFreeOn(h, HashedInputs(shards, h, c, samples))
    requires forall i :: 0 <= i < |samples| ==> VerifySample(h, samples[i], c)
    ensures CollisionFreeOn(h, HashedInputs(shards, h, c, picked))
    ensures forall i :: 0 <= i < |picked| ==> VerifySample(h, picked[i], c)
  {
    hide VerifySample;
    forall i | 0 <= i < |picked|
      ensures VerifySample(h, picked[i], c) && picked[i].shardData in HashedInputs(shards, h, c, samples)
    {
      assert picked[i] in samples;
      var j :| 0 <= j < |samples| && samples[j] == picked[i];
    }
    assert HashedInputs(shards, h, c, picked) <= HashedInputs(shards, h, c, samples);
  }

  lemma {:induction false} SubsetOfSize(s: set<nat>, k: nat) returns (t: set<nat>)
    requires k <= |s|
    ensures t <= s && |t| == k
  {
    if k == |s| {
      t := s;
    } else {
      var x :| x in s;
      t := SubsetOfSize(s - {x}, k);
    }
  }

  /** The verdict counts answers, not shards: one honest shard answered k >= 2 times passes k times, and those k
      samples do not decode. */
  lemma {:induction false} RepeatedAnswersPass(h: Hash, c: Commitment, s: Sample, m: nat)
    requires VerifySample(h, s, c)
    ensures Passed(h, seq(m, _ => Answered(s)), c) == seq(m, _ => s)
  {
    if m != 0 {
      RepeatedAnswersPass(h, c, s, m - 1);
      var r := seq(m, _ => Answered(s));
      assert r[1..] == seq(m - 1, _ => Answered(s));
    }
  }

  lemma RepeatedSampleDoesNotDecode(s: Sample, k: nat, n: nat, len: nat)
    requires IsPowerOfTwo(n) && 2 <= k
    ensures DecodeShards(ReadShards(seq(k, _ => s)), k, n, len).Err?
  {
    var shards := ReadShards(seq(k, _ => s));
    assert shards[0].index == shards[1].index;
    assert SeenBefore(shards, 1);
    BadIndexIsReported(shards, k, n, len, 1);
  }
}
