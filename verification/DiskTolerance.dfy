/** Exactly which losses a file survives, whatever its disk promises, and what a rechunk makes of that
    (src/vdisk.rs:224-309, src/vdisk.rs:342-438). */
module DiskTolerance {
  import opened Numbers
  import opened Goldilocks
  import opened Polynomial
  import opened Bytes
  import opened Erasure
  import opened Chunks
  import opened Words
  import opened DiskStates
  import opened DiskFacts
  import opened DiskRuns
  import opened DiskLosses
  import opened Sequences

  // ---------- one loss ----------

  /** How many of the first n shard positions were dealt to lost devices. */
  ghost function LostCount(devices: seq<string>, n: nat, lost: set<string>): (c: nat)
    requires devices != []
    ensures c <= n
  {
    if n == 0 then 0
    else LostCount(devices, n - 1, lost) + if devices[(n - 1) % |devices|] in lost then 1 else 0
  }

  /** The chunks of a file are held nowhere but where they were dealt. The shards of an encoding with k = 1 are all equal,
      so there any device of the file will do. */
  ghost predicate OnlyWhereDealt(held: set<(string, Digest)>, hashes: seq<Digest>, devices: seq<string>, k: nat)
    requires devices != []
  {
    forall i, d :: 0 <= i < |hashes| && (d, hashes[i]) in held ==> MayHold(d, i, devices, k)
  }

  predicate MayHold(d: string, i: nat, devices: seq<string>, k: nat)
    requires devices != []
  {
    d in devices && (k > 1 ==> d == devices[i % |devices|])
  }

  lemma {:induction false} HeldAtLeast(e: FileEntry, o: Origin, stores: Stores, lost: set<string>, m: nat)
    requires Placed(e, o, stores) && m <= |e.shardHashes|
    ensures |HeldPositions(e.shardHashes, stores - lost, m)| + LostCount(o.devices, m, lost) >= m
  {
    hide Held;
    if m > 0 {
      HeldAtLeast(e, o, stores, lost, m - 1);
      var d := o.devices[(m - 1) % |o.devices|];
      if d !in lost {
        assert Holds(stores - lost, d, e.shardHashes[m - 1]);
        assert Held(e.shardHashes[m - 1], stores - lost) by { HeldBy(e.shardHashes[m - 1], stores - lost, d); }
      }
    }
  }

  lemma HeldBy(hash: Digest, stores: Stores, d: string)
    requires Holds(stores, d, hash)
    ensures Held(hash, stores)
  {
  }

  /** A chunk that only one device holds is lost with it. */
  lemma LostWithDevice(hash: Digest, stores: Stores, lost: set<string>, devices: set<string>)
    requires devices <= lost && forall d :: (d, hash) in Pairs(stores) ==> d in devices
    ensures !Held(hash, stores - lost)
  {
    assert forall d :: Holds(stores - lost, d, hash) ==> (d, hash) in Pairs(stores) && d !in lost;
  }

  lemma OnlyHolder(held: set<(string, Digest)>, hashes: seq<Digest>, devices: seq<string>, k: nat, i: nat)
    requires devices != [] && OnlyWhereDealt(held, hashes, devices, k) && k > 1 && i < |hashes|
    ensures forall d :: (d, hashes[i]) in held ==> d in {devices[i % |devices|]}
  {
    forall d | (d, hashes[i]) in held
      ensures d == devices[i % |devices|]
    {
      assert MayHold(d, i, devices, k);
    }
  }

  lemma {:induction false} HeldExactly(e: FileEntry, o: Origin, stores: Stores, lost: set<string>, m: nat)
    requires o.devices != [] && OnlyWhereDealt(Pairs(stores), e.shardHashes, o.devices, e.k) && e.k > 1 && m <= |e.shardHashes|
    ensures |HeldPositions(e.shardHashes, stores - lost, m)| + LostCount(o.devices, m, lost) <= m
  {
    hide Held, Pairs;
    if m > 0 {
      HeldExactly(e, o, stores, lost, m - 1);
      var d := o.devices[(m - 1) % |o.devices|];
      OnlyHolder(Pairs(stores), e.shardHashes, o.devices, e.k, m - 1);
      if d in lost {
        LostWithDevice(e.shardHashes[m - 1], stores, lost, {d});
      }
    }
  }

  /** With k = 1 nothing is held exactly when every device is lost. */
  lemma {:induction false} NoneHeld(e: FileEntry, o: Origin, stores: Stores, lost: set<string>, m: nat)
    requires o.devices != [] && OnlyWhereDealt(Pairs(stores), e.shardHashes, o.devices, e.k) && m <= |e.shardHashes|
    requires Elements(o.devices) <= lost
    ensures HeldPositions(e.shardHashes, stores - lost, m) == []
  {
    hide Held, Pairs;
    if m > 0 {
      NoneHeld(e, o, stores, lost, m - 1);
      LostWithDevice(e.shardHashes[m - 1], stores, lost, Elements(o.devices));
    }
  }

  lemma {:induction false} AllLost(devices: seq<string>, n: nat, lost: set<string>)
    requires devices != [] && LostCount(devices, n, lost) == n
    ensures forall i :: 0 <= i < n ==> devices[i % |devices|] in lost
  {
    if n > 0 {
      AllLost(devices, n - 1, lost);
    }
  }

  lemma AllDevicesLost(devices: seq<string>, n: nat, lost: set<string>)
    requires 0 < |devices| <= n && LostCount(devices, n, lost) == n
    ensures Elements(devices) <= lost
  {
    AllLost(devices, n, lost);
    hide LostCount;
    forall d | d in Elements(devices)
      ensures d in lost
    {
      var i :| 0 <= i < |devices| && devices[i] == d;
      StartsOver(|devices|, i);
      assert devices[i % |devices|] in lost;
    }
  }

  /** At least k positions are held after a loss exactly if at most n - k were dealt to lost devices. */
  lemma EnoughHeldIff(h: Hash, e: FileEntry, o: Origin, stores: Stores, texts: set<seq<Byte>>, lost: set<string>)
    requires Describes(h, e, o, texts) && Placed(e, o, stores)
    ensures LostCount(o.devices, e.n, lost) <= e.n - e.k ==> |HeldPositions(e.shardHashes, stores - lost, e.n)| >= e.k
    ensures OnlyWhereDealt(Pairs(stores), e.shardHashes, o.devices, e.k) ==>
              (|HeldPositions(e.shardHashes, stores - lost, e.n)| >= e.k <==> LostCount(o.devices, e.n, lost) <= e.n - e.k)
  {
    hide HeldPositions, LostCount, Pairs, OnlyWhereDealt;
    HeldAtLeast(e, o, stores, lost, e.n);
    if OnlyWhereDealt(Pairs(stores), e.shardHashes, o.devices, e.k) {
      if e.k > 1 {
        HeldExactly(e, o, stores, lost, e.n);
      } else if LostCount(o.devices, e.n, lost) == e.n {
        AllDevicesLost(o.devices, e.n, lost);
        NoneHeld(e, o, stores, lost, e.n);
      }
    }
  }

  /** After any loss a live file, whatever its devices, reads as its data if at most n - k of its shard positions were dealt
      to lost devices; and exactly then, if its chunks are held only where they were dealt. */
  lemma ReadsAfterLossIff(hs: Hashing, s: DiskState, name: string, lost: set<string>, order: Order)
    requires WellFormed(hs, s) && Live(s, name) && |s.attachments| <= MAX_DEVICES
    requires CollisionFreeOn(hs.chunk, s.texts) && Lists(order)
    ensures name in s.origin && s.origin[name].devices != []
    ensures
      var e, o := s.registry[name], s.origin[name];
      var few := LostCount(o.devices, e.n, lost) <= e.n - e.k;
      && (few ==> Read(Lose(s, lost), name, order) == Success(o.data))
      && (OnlyWhereDealt(Pairs(s.stores), e.shardHashes, o.devices, e.k) && !few ==>
            Read(Lose(s, lost), name, order) == Failure("not enough shards available"))
  {
    hide Connected, HeldPositions, Lists, Read, LostCount, Pairs, OnlyWhereDealt, Filed;
    assert FileOk(hs, s, name);
    SizesFit(hs, s, name);
    EnoughHeldIff(hs.chunk, s.registry[name], s.origin[name], s.stores, s.texts, lost);
    LessFiled(hs.chunk, s.stores, s.texts, lost);
    ReadsIff(hs, Lose(s, lost), name, order);
  }

  // ---------- any f losses ----------

  /** A file reads as its data after the loss of any f device stores. */
  ghost predicate Survives(s: DiskState, name: string, f: nat, order: Order)
    requires name in s.origin
  {
    forall lost: set<string> :: |lost| <= f ==> Read(Lose(s, lost), name, order) == Success(s.origin[name].data)
  }

  function Min(a: int, b: int): int {
    if a <= b then a else b
  }

  /** On m different devices the first n - m hold two of the n shards, the others one: the worst loss of f devices takes
      f shards, and one more for each of the first. */
  predicate Endures(f: nat, m: nat, k: nat, n: nat) {
    f + Min(f, n - m) <= n - k
  }

  /** What a redundancy promises is endured; without devices that hold two shards, no more than that. */
  lemma PromiseIsEndured(redundancy: Redundancy, m: nat, n: nat, f: nat)
    requires 0 < m <= n && ToleranceFits(redundancy, m)
    ensures f <= Faults(redundancy, m) ==> Endures(f, m, RequiredShards(redundancy, m), n)
    ensures n == m ==> (Endures(f, m, RequiredShards(redundancy, m), n) <==> f <= Faults(redundancy, m))
  {
  }

  /** How many of the first j devices are lost. */
  ghost function LostAmong(devices: seq<string>, j: nat, lost: set<string>): nat
    requires j <= |devices|
  {
    |lost * Elements(devices[..j])|
  }

  lemma {:induction false} CountDistinct(devices: seq<string>, j: nat, lost: set<string>)
    requires devices != [] && NoDup(devices) && j <= |devices|
    ensures LostCount(devices, j, lost) == LostAmong(devices, j, lost)
  {
    hide NoDup, LostAmong;
    if j == 0 {
      NoneAmong(devices, lost);
    } else {
      CountDistinct(devices, j - 1, lost);
      LostOneMore(devices, j, lost);
      AmongOneMore(devices, j, lost);
    }
  }

  lemma NoneAmong(devices: seq<string>, lost: set<string>)
    ensures LostAmong(devices, 0, lost) == 0
  {
    assert lost * Elements(devices[..0]) == {};
  }

  lemma AmongOneMore(devices: seq<string>, j: nat, lost: set<string>)
    requires NoDup(devices) && 0 < j <= |devices|
    ensures LostAmong(devices, j, lost) == LostAmong(devices, j - 1, lost) + if devices[j - 1] in lost then 1 else 0
  {
    hide Elements;
    ElementsSnoc(devices, j);
    hide NoDup;
    CountOneMore(lost, Elements(devices[..j - 1]), devices[j - 1]);
  }

  lemma LostOneMore(devices: seq<string>, j: nat, lost: set<string>)
    requires 0 < j <= |devices|
    ensures LostCount(devices, j, lost) == LostCount(devices, j - 1, lost) + if devices[j - 1] in lost then 1 else 0
  {
    assert (j - 1) % |devices| == j - 1;
  }

  /** The positions past the number of devices start over. */
  lemma {:induction false} CountWraps(devices: seq<string>, j: nat, lost: set<string>)
    requires devices != [] && j <= |devices|
    ensures LostCount(devices, |devices| + j, lost) == LostCount(devices, |devices|, lost) + LostCount(devices, j, lost)
  {
    if j > 0 {
      CountWraps(devices, j - 1, lost);
      StartsOver(|devices|, j - 1);
    }
  }

  lemma StartsOver(m: nat, i: nat)
    requires i < m
    ensures (m + i) % m == i % m == i
  {
  }

  lemma CountBound(devices: seq<string>, n: nat, lost: set<string>, f: nat)
    requires devices != [] && NoDup(devices) && |devices| <= n <= 2 * |devices| && |lost| <= f
    ensures LostCount(devices, n, lost) <= f + Min(f, n - |devices|)
  {
    hide NoDup, Elements;
    var m := |devices|;
    CountWraps(devices, n - m, lost);
    CountDistinct(devices, m, lost);
    CountDistinct(devices, n - m, lost);
    SubsetSize(lost * Elements(devices[..m]), lost);
    SubsetSize(lost * Elements(devices[..n - m]), lost);
  }

  /** The first f devices are a worst loss. */
  lemma CountReached(devices: seq<string>, n: nat, f: nat)
    requires devices != [] && NoDup(devices) && |devices| <= n <= 2 * |devices| && f <= |devices|
    ensures |Elements(devices[..f])| == f
    ensures LostCount(devices, n, Elements(devices[..f])) == f + Min(f, n - |devices|)
  {
    hide LostCount;
    var m, lost := |devices|, Elements(devices[..f]);
    NoDupCardinality(devices[..f]);
    CountWraps(devices, n - m, lost);
    CountOfFirst(devices, m, f);
    CountOfFirst(devices, n - m, f);
  }

  lemma CountOfFirst(devices: seq<string>, j: nat, f: nat)
    requires devices != [] && NoDup(devices) && j <= |devices| && f <= |devices|
    ensures LostCount(devices, j, Elements(devices[..f])) == Min(f, j)
  {
    hide LostCount;
    var lost, first := Elements(devices[..f]), Elements(devices[..j]);
    CountDistinct(devices, j, lost);
    NoDupCardinality(devices[..f]);
    NoDupCardinality(devices[..j]);
    if f <= j {
      assert devices[..f] == devices[..j][..f];
      assert lost * first == lost;
    } else {
      assert devices[..j] == devices[..f][..j];
      assert lost * first == first;
    }
  }

  /** A live file on different devices survives the loss of any f device stores if f + min(f, n - m) is at most n - k; and
      exactly then, if its chunks are held only where they were dealt. */
  lemma SurvivesIff(hs: Hashing, s: DiskState, name: string, f: nat, order: Order)
    requires WellFormed(hs, s) && Live(s, name) && |s.attachments| <= MAX_DEVICES
    requires CollisionFreeOn(hs.chunk, s.texts) && Lists(order)
    requires name in s.origin && NoDup(s.origin[name].devices)
    ensures s.origin[name].devices != []
    ensures
      var e, o := s.registry[name], s.origin[name];
      && (Endures(f, |o.devices|, e.k, e.n) ==> Survives(s, name, f, order))
      && (OnlyWhereDealt(Pairs(s.stores), e.shardHashes, o.devices, e.k) ==>
            (Survives(s, name, f, order) <==> Endures(f, |o.devices|, e.k, e.n)))
  {
    hide Lists, Read, LostCount, Pairs, OnlyWhereDealt, CollisionFreeOn, NoDup, Elements;
    var e, o := s.registry[name], s.origin[name];
    FileSizes(hs, s, name);
    hide WellFormed;
    if Endures(f, |o.devices|, e.k, e.n) {
      forall lost: set<string> | |lost| <= f
        ensures Read(Lose(s, lost), name, order) == Success(o.data)
      {
        CountBound(o.devices, e.n, lost, f);
        ReadsAfterLossIff(hs, s, name, lost, order);
      }
    } else {
      var g := if f <= |o.devices| then f else |o.devices|;
      var lost := Elements(o.devices[..g]);
      CountReached(o.devices, e.n, g);
      ReadsAfterLossIff(hs, s, name, lost, order);
    }
  }

  lemma FileSizes(hs: Hashing, s: DiskState, name: string)
    requires WellFormed(hs, s) && name in s.registry
    ensures name in s.origin
    ensures 1 <= s.registry[name].k <= |s.origin[name].devices| <= s.registry[name].n <= 2 * |s.origin[name].devices|
    ensures |s.registry[name].shardHashes| == s.registry[name].n && Placed(s.registry[name], s.origin[name], s.stores)
  {
    hide Filed, Connected;
    assert FileOk(hs, s, name);
  }

  /** All shards of an encoding with k = 1 are the same. */
  lemma OneShardForAll(data: seq<Byte>, n: nat, i: nat, j: nat)
    requires i < n && j < n
    ensures EncodedShard(data, 1, n, i).data == EncodedShard(data, 1, n, j).data
  {
    hide Codeword, Padded, Pack, Cong;
    forall g | 0 <= g < GroupCount(|Pack(data)|, 1)
      ensures Codeword(data, 1, n, g)[i] == Codeword(data, 1, n, g)[j]
    {
      CodewordValue(data, 1, n, g, i);
      CodewordValue(data, 1, n, g, j);
      var c := Group(Padded(data, 1), 1, GroupCount(|Pack(data)|, 1), g);
      EvalOne(c, Reduce(Pow(Omega(n), i)));
      EvalOne(c, Reduce(Pow(Omega(n), j)));
      CongCanonical(Codeword(data, 1, n, g)[i], c[0], P);
      CongCanonical(Codeword(data, 1, n, g)[j], c[0], P);
    }
  }

  lemma EvalOne(c: seq<int>, x: int)
    requires |c| == 1
    ensures Eval(c, x) == c[0]
  {
    assert Eval(c[1..], x) == 0;
  }

  // ---------- what a rechunk makes of it ----------

  /** The digests of a file's shards, encoded for a rechunk. */
  ghost function NewHashes(h: Hash, rw: Rewrite, data: seq<Byte>): (r: seq<Digest>)
    requires rw.Fits() && rw.k > 0
    ensures |r| == rw.N()
  {
    seq(rw.N(), i requires 0 <= i < rw.N() => h(ElementBytes(EncodedShard(data, rw.k, rw.N(), i).data)))
  }

  /** Which device is dealt which chunk of the file. */
  ghost function NewPairs(h: Hash, rw: Rewrite, data: seq<Byte>): set<(string, Digest)>
    requires rw.Fits()
  {
    if rw.k == 0 then {} else set i | 0 <= i < rw.N() :: (rw.devices[i % |rw.devices|], NewHashes(h, rw, data)[i])
  }

  /** Rewriting the file, if it is live, deals this chunk to this device. */
  ghost predicate DealtFor(s: DiskState, h: Hash, rw: Rewrite, a: string, p: (string, Digest))
    requires rw.Fits()
  {
    Live(s, a) && a in s.origin && p in NewPairs(h, rw, s.origin[a].data)
  }

  lemma KeptPairs(hs: Hashing, s: DiskState, rw: Rewrite, job: Job)
    requires rw.Fits() && rw.k > 0 && job.Fits() && job.k == rw.k && job.devices == rw.devices
    ensures Pairs(Kept(hs, s, job).0.stores) <= Pairs(s.stores) + NewPairs(hs.chunk, rw, job.data)
  {
    hide Kept, Deal, ElementBytes, EncodedShard;
    KeptStores(hs, s, job);
    var shards := EncodeShards(job.data, job.k, job.N());
    ShardsNumbered(job.data, job.k, job.N());
    forall p | p in Pairs(Kept(hs, s, job).0.stores)
      ensures p in Pairs(s.stores) + NewPairs(hs.chunk, rw, job.data)
    {
      DealContents(hs.chunk, s.stores, shards, job.devices, p.0, p.1);
      if !Holds(s.stores, p.0, p.1) {
        var i :| 0 <= i < |shards| && job.devices[shards[i].index % |job.devices|] == p.0 && p.1 == hs.chunk(ElementBytes(shards[i].data));
        assert shards[i] == EncodedShard(job.data, job.k, job.N(), i);
        assert p == (rw.devices[i % |rw.devices|], NewHashes(hs.chunk, rw, job.data)[i]);
      }
    }
  }

  lemma RewriteOnePairs(hs: Hashing, s: DiskState, rw: Rewrite, name: string, now: nat, order: Order)
    requires WellFormed(hs, s) && rw.Fits() && name in s.registry && |s.attachments| <= MAX_DEVICES
    requires CollisionFreeOn(hs.chunk, s.texts) && Lists(order)
    ensures name in s.origin
    ensures forall p :: p in Pairs(RewriteOne(hs, s, rw, name, now, order).0.stores) ==>
              p in Pairs(s.stores) || DealtFor(s, hs.chunk, rw, name, p)
  {
    FileSizes(hs, s, name);
    hide WellFormed, Kept, Read, Lists, CollisionFreeOn, Pairs, NewPairs;
    if Live(s, name) {
      AllRead(hs, s, name, order);
      if rw.k > 0 {
        KeptPairs(hs, s, rw, rw.JobFor(name, s.origin[name].data, s.registry[name].timestamp, now));
      }
    } else {
      NotLive(s, name, order);
    }
  }

  /** Nothing is held but what was held before, and what rewriting the live ones of these files deals. */
  ghost predicate Within(t: Stores, s: DiskState, h: Hash, rw: Rewrite, names: seq<string>)
    requires rw.Fits()
  {
    forall p :: p in Pairs(t) ==> p in Pairs(s.stores) || exists a :: a in names && DealtFor(s, h, rw, a, p)
  }

  lemma {:induction false} RewriteAllPairs(hs: Hashing, s: DiskState, rw: Rewrite, names: seq<string>, clock: nat -> nat, order: Order)
    requires WellFormed(hs, s) && RewriteOk(s, rw) && |s.attachments| <= MAX_DEVICES && Lists(order)
    requires NoDup(names) && forall n :: n in names ==> n in s.registry
    requires CollisionFreeOn(hs.chunk, RewriteAll(hs, s, rw, names, clock, order).0.texts)
    ensures Within(RewriteAll(hs, s, rw, names, clock, order).0.stores, s, hs.chunk, rw, names)
  {
    assert rw.Fits();
    if names != [] {
      var last := |names| - 1;
      var before := names[..last];
      AllButLast(names, s.registry.Keys);
      RewriteSplit(hs, s, rw, names, clock, order);
      hide WellFormed, RewriteOne, RewriteOk, Lists, RewrittenTo, Extends, CollisionFreeOn, RewriteAll, NoDup, Within;
      RewriteAllKeeps(hs, s, rw, before, clock, order);
      var mid := RewriteAll(hs, s, rw, before, clock, order);
      if mid.1.Success? {
        RewriteOneKeeps(hs, mid.0, rw, names[last], clock(last), order);
        FewerTexts(hs.chunk, mid.0, RewriteOne(hs, mid.0, rw, names[last], clock(last), order).0);
        RewriteAllPairs(hs, s, rw, before, clock, order);
        RewriteAllMoves(hs, s, rw, before, clock, order);
        NotYet(s, mid.0, rw, before, names[last]);
        RewriteOnePairs(hs, mid.0, rw, names[last], clock(last), order);
        WithinMore(mid.0, RewriteOne(hs, mid.0, rw, names[last], clock(last), order).0.stores, s, hs.chunk, rw, names);
      } else {
        RewriteAllPairs(hs, s, rw, before, clock, order);
        WithinPrefix(mid.0.stores, s, hs.chunk, rw, names);
      }
    }
  }

  /** A file that has not had its turn is as it was. */
  lemma NotYet(s: DiskState, mid: DiskState, rw: Rewrite, before: seq<string>, name: string)
    requires RewrittenTo(s, mid, rw, before, true) && name in s.registry && name !in before
    ensures name in s.origin && Untouched(s, mid, name)
  {
    assert FileRewritten(s, mid, rw, name, false, true);
  }

  lemma WithinPrefix(t: Stores, s: DiskState, h: Hash, rw: Rewrite, names: seq<string>)
    requires rw.Fits() && names != [] && Within(t, s, h, rw, names[..|names| - 1])
    ensures Within(t, s, h, rw, names)
  {
    hide DealtFor, Pairs;
    assert forall a :: a in names[..|names| - 1] ==> a in names;
  }

  lemma WithinMore(mid: DiskState, t: Stores, s: DiskState, h: Hash, rw: Rewrite, names: seq<string>)
    requires rw.Fits() && names != [] && Within(mid.stores, s, h, rw, names[..|names| - 1])
    requires names[|names| - 1] in s.registry && names[|names| - 1] in s.origin && Untouched(s, mid, names[|names| - 1])
    requires forall p :: p in Pairs(t) ==> p in Pairs(mid.stores) || DealtFor(mid, h, rw, names[|names| - 1], p)
    ensures Within(t, s, h, rw, names)
  {
    hide Pairs, NewPairs;
    WithinPrefix(mid.stores, s, h, rw, names);
    var name := names[|names| - 1];
    assert name in names;
    forall p | p in Pairs(t) && p !in Pairs(mid.stores)
      ensures DealtFor(s, h, rw, name, p)
    {
    }
  }

  /** Which device holds which chunk, or will be dealt it by the rechunk. */
  ghost function Spread(hs: Hashing, s: DiskState, rw: Rewrite): set<(string, Digest)>
    requires rw.Fits()
  {
    Pairs(s.stores)
    + set a, p | a in s.origin && a in s.registry && rw.Outdated(s.registry[a]) && p in NewPairs(hs.chunk, rw, s.origin[a].data)
                 && DealtFor(s, hs.chunk, rw, a, p) :: p
  }

  /** In all that a rechunk leaves, the chunks of a file are only where they were dealt: for a file to be rewritten its new
      chunks on the new devices, for any other its present ones. It can be checked before the call. */
  ghost predicate Apart(hs: Hashing, s: DiskState, rw: Rewrite, n: string)
    requires rw.Fits() && n in s.registry && n in s.origin
  {
    if rw.Outdated(s.registry[n])
    then rw.k > 0 ==> OnlyWhereDealt(Spread(hs, s, rw), NewHashes(hs.chunk, rw, s.origin[n].data), rw.devices, rw.k)
    else s.origin[n].devices != [] ==>
           OnlyWhereDealt(Spread(hs, s, rw), s.registry[n].shardHashes, s.origin[n].devices, s.registry[n].k)
  }

  lemma FewerHeld(a: set<(string, Digest)>, b: set<(string, Digest)>, hashes: seq<Digest>, devices: seq<string>, k: nat)
    requires a <= b && devices != [] && OnlyWhereDealt(b, hashes, devices, k)
    ensures OnlyWhereDealt(a, hashes, devices, k)
  {
    hide MayHold;
  }

  /** What a rechunk leaves in the stores. */
  lemma RechunkPairs(hs: Hashing, s: DiskState, disk: string, clock: nat -> nat, order: Order)
    requires WellFormed(hs, s) && |s.attachments| <= MAX_DEVICES && Lists(order)
    requires CollisionFreeOn(hs.chunk, Rechunked(hs, s, disk, clock, order).0.texts)
    requires RewriteFor(s, disk).Success? && RewriteFor(s, disk).value.Some?
    ensures Pairs(Rechunked(hs, s, disk, clock, order).0.stores) <= Spread(hs, s, RewriteFor(s, disk).value.value)
  {
    hide WellFormed, RewriteFor, RewriteAll, OutdatedNames, Lists, Pairs, NewPairs;
    RewriteForOk(s, disk);
    var rw := RewriteFor(s, disk).value.value;
    ListedNames(order, s.registry.Keys);
    OutdatedIff(s, rw, order(s.registry.Keys));
    var names := OutdatedNames(s, rw, order(s.registry.Keys));
    RewriteAllPairs(hs, s, rw, names, clock, order);
    var t := Rechunked(hs, s, disk, clock, order).0;
    forall p | p in Pairs(t.stores)
      ensures p in Spread(hs, s, rw)
    {
      if p !in Pairs(s.stores) {
        var a :| a in names && DealtFor(s, hs.chunk, rw, a, p);
        assert a in s.registry && rw.Outdated(s.registry[a]);
      }
    }
  }

  /** No device is attached twice to one disk. */
  ghost predicate DifferentOn(s: DiskState) {
    forall disk :: NoDup(DevicesOn(s.attachments, disk))
  }

  lemma FileDevicesDiffer(hs: Hashing, s: DiskState, name: string)
    requires WellFormed(hs, s) && DifferentOn(s) && name in s.registry
    ensures name in s.origin && NoDup(s.origin[name].devices)
  {
    hide Filed, Connected, Describes, Placed;
    assert FileOk(hs, s, name);
    var all := DevicesOn(s.attachments, s.origin[name].disk);
    assert NoDup(all) && s.origin[name].devices <= all;
  }

  /** After a rechunk a live file survives the loss of any f device stores exactly if, where the rechunk moves it, the new
      sizes on the rechunked disk endure that, and otherwise it survived it before. Which disk the file was put on, and what
      that disk promises, has no say. */
  lemma RechunkSurvival(hs: Hashing, s: DiskState, disk: string, clock: nat -> nat, order: Order, name: string, f: nat, look: Order)
    requires WellFormed(hs, s) && |s.attachments| <= MAX_DEVICES && Lists(order) && Lists(look) && DifferentOn(s)
    requires CollisionFreeOn(hs.chunk, Rechunked(hs, s, disk, clock, order).0.texts)
    requires Rechunked(hs, s, disk, clock, order).1.Success?
    requires RewriteFor(s, disk).Success? && RewriteFor(s, disk).value.Some?
    requires Live(s, name) && name in s.origin && s.registry[name].timestamp < U64_MAX
    requires Apart(hs, s, RewriteFor(s, disk).value.value, name)
    ensures
      var t, rw := Rechunked(hs, s, disk, clock, order).0, RewriteFor(s, disk).value.value;
      && name in t.origin && t.origin[name].data == s.origin[name].data
      && (Survives(t, name, f, look) <==>
            if rw.Outdated(s.registry[name]) then Endures(f, |rw.devices|, rw.k, rw.N()) else Survives(s, name, f, look))
  {
    var t, rw := Rechunked(hs, s, disk, clock, order).0, RewriteFor(s, disk).value.value;
    hide WellFormed, Rechunked, Lists, DevicesOn, Survives, Pairs, Spread, OnlyWhereDealt, CollisionFreeOn, NoDup, RewriteFor, Endures, Extends;
    RechunkMoves(hs, s, disk, clock, order);
    assert FileRewritten(s, t, rw, name, rw.Outdated(s.registry[name]), true);
    RechunkPairs(hs, s, disk, clock, order);
    RechunkedKeeps(hs, s, disk, clock, order);
    RechunkSetup(hs, s, disk, clock, order);
    FileDevicesDiffer(hs, t, name);
    FileSizes(hs, t, name);
    SurvivesIff(hs, t, name, f, look);
    if rw.Outdated(s.registry[name]) {
      HashesAreNew(hs, t, rw, name);
      FewerHeld(Pairs(t.stores), Spread(hs, s, rw), t.registry[name].shardHashes, rw.devices, rw.k);
    } else {
      FewerTexts(hs.chunk, s, t);
      FileSizes(hs, s, name);
      FewerHeld(Pairs(t.stores), Spread(hs, s, rw), s.registry[name].shardHashes, s.origin[name].devices, s.registry[name].k);
      SpreadHolds(hs, s, rw);
      FewerHeld(Pairs(s.stores), Spread(hs, s, rw), s.registry[name].shardHashes, s.origin[name].devices, s.registry[name].k);
      SurvivesIff(hs, s, name, f, look);
    }
  }

  lemma SpreadHolds(hs: Hashing, s: DiskState, rw: Rewrite)
    requires rw.Fits()
    ensures Pairs(s.stores) <= Spread(hs, s, rw)
  {
    hide Pairs, NewPairs, DealtFor;
  }

  /** A rechunk leaves the attachments as they are. */
  lemma RechunkSetup(hs: Hashing, s: DiskState, disk: string, clock: nat -> nat, order: Order)
    requires WellFormed(hs, s)
    ensures Rechunked(hs, s, disk, clock, order).0.attachments == s.attachments
  {
    SetupStep(hs, s, Rechunk(disk, clock, order));
  }

  lemma HashesAreNew(hs: Hashing, t: DiskState, rw: Rewrite, name: string)
    requires WellFormed(hs, t) && rw.Fits() && name in t.registry && name in t.origin
    requires t.origin[name].devices == rw.devices && t.registry[name].k == rw.k && t.registry[name].n == rw.N()
    ensures rw.k > 0 && t.registry[name].shardHashes == NewHashes(hs.chunk, rw, t.origin[name].data)
  {
    hide Filed, Connected, ElementBytes, EncodedShard, Placed, Sized;
    assert FileOk(hs, t, name);
  }
}
