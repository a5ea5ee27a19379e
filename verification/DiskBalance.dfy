/** What a rebalance moves and what the devices hold (src/vdisk.rs:503-564, src/store.rs:134-154): in terms of the stores
    before and after. */
module DiskBalance {
  import opened Bytes
  import opened Erasure
  import opened Chunks
  import opened Words
  import opened DiskStates
  import opened DiskFacts
  import opened DiskRuns
  import opened DiskLosses
  import opened Sequences

  // ---------- one chunk, while others are copied ----------

  /** The same devices hold the chunk, with the same bytes. */
  ghost predicate SameChunk(a: Stores, b: Stores, c: Digest) {
    a.Keys == b.Keys
    && forall d :: (Holds(a, d, c) <==> Holds(b, d, c)) && (Holds(a, d, c) ==> a[d].index[c] == b[d].index[c])
  }

  /** The devices have the same capacity and at least as much used. */
  ghost predicate UsedGrows(a: Stores, b: Stores) {
    forall d :: d in a ==> d in b && b[d].capacity == a[d].capacity && a[d].used <= b[d].used
  }

  lemma UsedGrowsTrans(a: Stores, b: Stores, c: Stores)
    requires UsedGrows(a, b) && UsedGrows(b, c)
    ensures UsedGrows(a, c)
  {
  }

  /** Copying one chunk leaves every other as it is. */
  lemma CopiedOneOthers(h: Hash, stores: Stores, texts: set<seq<Byte>>, hash: Digest, over: seq<string>, under: seq<string>, c: Digest)
    requires Filed(h, stores, texts)
    ensures
      var t := CopiedOne(h, stores, hash, over, under).0;
      UsedGrows(stores, t) && (c != hash ==> SameChunk(stores, t, c))
  {
    hide ElementBytes, BytesElements;
    var from, to := FirstHolder(stores, over, hash, 0), FirstLacking(stores, under, hash, 0);
    if from < |over| && to < |under| {
      var text := stores[over[from]].index[hash];
      assert Canonical(text) && h(text) == hash;
      PutUses(stores[under[to]], h, text);
    }
  }

  lemma PutUses(store: ChunkStore, h: Hash, text: seq<Byte>)
    ensures
      var put := PutBytes(store, h, text);
      put.Stored? ==> put.store.capacity == store.capacity && store.used <= put.store.used
    ensures PutBytes(store, h, text).CapacityExceeded? <==> store.capacity > 0 && SaturatingAdd(store.used, |text|) > store.capacity
  {
  }

  lemma SameChunkTrans(a: Stores, b: Stores, c: Stores, x: Digest)
    requires SameChunk(a, b, x) && SameChunk(b, c, x)
    ensures SameChunk(a, c, x)
  {
  }

  lemma NothingCopied(stores: Stores, c: Digest)
    ensures SameChunk(stores, stores, c) && UsedGrows(stores, stores)
  {
  }

  /** Copying chunks other than c leaves c as it is; copying any chunks takes nothing away. */
  lemma {:induction false} CopiedAllOthers(h: Hash, stores: Stores, texts: set<seq<Byte>>, hashes: seq<Digest>, over: seq<string>, under: seq<string>, c: Digest)
    requires Filed(h, stores, texts)
    ensures
      var t := CopiedAll(h, stores, hashes, over, under).0;
      UsedGrows(stores, t) && (c !in hashes ==> SameChunk(stores, t, c))
  {
    hide CopiedOne, Filed, SameChunk, UsedGrows;
    if hashes == [] {
      NothingCopied(stores, c);
    } else {
      var last := |hashes| - 1;
      var mid := CopiedAll(h, stores, hashes[..last], over, under).0;
      CopiedAllOthers(h, stores, texts, hashes[..last], over, under, c);
      CopiedAllKeeps(h, stores, texts, hashes[..last], over, under);
      CopiedOneOthers(h, mid, texts, hashes[last], over, under, c);
      var t := CopiedOne(h, mid, hashes[last], over, under).0;
      UsedGrowsTrans(stores, mid, t);
      if c !in hashes {
        assert c !in hashes[..last] && c != hashes[last];
        SameChunkTrans(stores, mid, t, c);
      }
    }
  }

  // ---------- what moves ----------

  /** The i-th device of the list is the first that has a store without the chunk. */
  ghost predicate FirstWithout(stores: Stores, under: seq<string>, c: Digest, i: nat) {
    && i < |under| && under[i] in stores && c !in stores[under[i]].index
    && forall j :: 0 <= j < i ==> under[j] in stores ==> c in stores[under[j]].index
  }

  /** Some over-full device has the chunk, with this many bytes. */
  ghost predicate HeldOver(stores: Stores, over: seq<string>, c: Digest, length: nat) {
    exists d :: d in over && Holds(stores, d, c) && |stores[d].index[c]| == length
  }

  /** The device has no room for this many bytes. */
  predicate Full(store: ChunkStore, length: nat) {
    store.capacity > 0 && store.used + length > store.capacity
  }

  /** The chunk came to the first device of `under` that lacked it, or that device has no room for it. */
  ghost predicate Delivered(s: Stores, t: Stores, over: seq<string>, under: seq<string>, c: Digest) {
    forall i: nat :: FirstWithout(s, under, c, i) ==>
      && under[i] in t
      && (Holds(t, under[i], c) || exists length :: HeldOver(s, over, c, length) && Full(t[under[i]], length))
  }

  /** A copy arrives unless the device is full. */
  lemma CopyArrives(h: Hash, stores: Stores, texts: set<seq<Byte>>, over: seq<string>, under: seq<string>, c: Digest)
    requires Filed(h, stores, texts)
    requires FirstHolder(stores, over, c, 0) < |over| && FirstLacking(stores, under, c, 0) < |under|
    ensures
      var from, to := over[FirstHolder(stores, over, c, 0)], under[FirstLacking(stores, under, c, 0)];
      var t := CopiedOne(h, stores, c, over, under).0;
      to in t && (Holds(t, to, c) || (t == stores && Full(t[to], |stores[from].index[c]|)))
  {
    hide ElementBytes, BytesElements;
    var from, to := FirstHolder(stores, over, c, 0), FirstLacking(stores, under, c, 0);
    var text := stores[over[from]].index[c];
    assert Canonical(text) && h(text) == c;
    PutUses(stores[under[to]], h, text);
  }

  lemma SomeHolder(s: Stores, mid: Stores, over: seq<string>, c: Digest)
    requires SameChunk(s, mid, c) && exists length :: HeldOver(s, over, c, length)
    ensures FirstHolder(mid, over, c, 0) < |over|
    ensures HeldOver(s, over, c, |mid[over[FirstHolder(mid, over, c, 0)]].index[c]|)
  {
    var length :| HeldOver(s, over, c, length);
    var d :| d in over && Holds(s, d, c);
    var j :| 0 <= j < |over| && over[j] == d;
    assert Holds(mid, over[j], c);
    var from := over[FirstHolder(mid, over, c, 0)];
    assert from in over && Holds(s, from, c);
  }

  /** One attempt at a chunk, at a moment when its holders are those of before. */
  lemma OneAttempt(h: Hash, s: Stores, mid: Stores, texts: set<seq<Byte>>, over: seq<string>, under: seq<string>, c: Digest)
    requires Filed(h, mid, texts) && SameChunk(s, mid, c)
    requires exists length :: HeldOver(s, over, c, length)
    ensures Delivered(s, CopiedOne(h, mid, c, over, under).0, over, under, c)
  {
    SomeHolder(s, mid, over, c);
    hide Filed, CopiedOne, HeldOver, SameChunk, Full;
    forall i: nat | FirstWithout(s, under, c, i)
      ensures
        var t := CopiedOne(h, mid, c, over, under).0;
        under[i] in t && (Holds(t, under[i], c) || exists length :: HeldOver(s, over, c, length) && Full(t[under[i]], length))
    {
      FirstIsLacking(s, mid, under, c, i);
      CopyArrives(h, mid, texts, over, under, c);
    }
  }

  lemma FirstIsLacking(s: Stores, mid: Stores, under: seq<string>, c: Digest, i: nat)
    requires SameChunk(s, mid, c) && FirstWithout(s, under, c, i)
    ensures FirstLacking(mid, under, c, 0) == i
  {
    var to := FirstLacking(mid, under, c, 0);
    assert !Holds(mid, under[i], c);
    if to < i {
      assert under[to] in s && !Holds(mid, under[to], c);
      assert Holds(s, under[to], c);
      assert false;
    } else if to > i {
      LackingNotPast(mid, under, c, 0, i);
    }
  }

  lemma LackingNotPast(stores: Stores, under: seq<string>, c: Digest, from: nat, i: nat)
    requires from <= i < |under| && under[i] in stores && c !in stores[under[i]].index
    ensures FirstLacking(stores, under, c, from) <= i
    decreases i - from
  {
    if from < i && !(under[from] in stores && c !in stores[under[from]].index) {
      LackingNotPast(stores, under, c, from + 1, i);
    }
  }

  /** What is delivered stays so: stores only fill up. */
  lemma DeliveredStays(s: Stores, a: Stores, b: Stores, over: seq<string>, under: seq<string>, c: Digest)
    requires Delivered(s, a, over, under, c) && AllGrow(a, b) && UsedGrows(a, b)
    ensures Delivered(s, b, over, under, c)
  {
    hide HeldOver;
    forall i: nat | FirstWithout(s, under, c, i)
      ensures under[i] in b && (Holds(b, under[i], c) || exists length :: HeldOver(s, over, c, length) && Full(b[under[i]], length))
    {
      if !Holds(a, under[i], c) {
        var length: nat :| HeldOver(s, over, c, length) && Full(a[under[i]], length);
        assert Full(b[under[i]], length);
      }
    }
  }

  lemma {:induction false} DeliveredAll(h: Hash, s: Stores, texts: set<seq<Byte>>, hashes: seq<Digest>, over: seq<string>, under: seq<string>, c: Digest)
    requires Filed(h, s, texts) && c in hashes && exists length :: HeldOver(s, over, c, length)
    ensures Delivered(s, CopiedAll(h, s, hashes, over, under).0, over, under, c)
  {
    hide CopiedOne, Filed, HeldOver, Delivered, SameChunk, UsedGrows, AllGrow;
    var last := |hashes| - 1;
    var mid := CopiedAll(h, s, hashes[..last], over, under).0;
    CopiedAllKeeps(h, s, texts, hashes[..last], over, under);
    if c in hashes[..last] {
      DeliveredAll(h, s, texts, hashes[..last], over, under, c);
      CopiedOneKeeps(h, mid, texts, hashes[last], over, under);
      CopiedOneOthers(h, mid, texts, hashes[last], over, under, c);
      DeliveredStays(s, mid, CopiedOne(h, mid, hashes[last], over, under).0, over, under, c);
    } else {
      assert hashes[last] == c;
      CopiedAllOthers(h, s, texts, hashes[..last], over, under, c);
      OneAttempt(h, s, mid, texts, over, under, c);
    }
  }

  lemma {:induction false} LiveHashes(s: DiskState, names: seq<string>, name: string, c: Digest)
    requires name in names && Live(s, name) && c in s.registry[name].shardHashes
    ensures c in HashesOf(s, names)
  {
    var last := |names| - 1;
    if name in names[..last] {
      LiveHashes(s, names[..last], name, c);
    }
  }

  /** After a rebalance every chunk of a live file that an over-full device held, and an under-full one with a store lacked,
      is on the first such under-full device, unless that device has no room for it. */
  lemma RebalanceDelivers(hs: Hashing, s: DiskState, over: seq<string>, under: seq<string>, order: Order, name: string, c: Digest)
    requires WellFormed(hs, s) && Lists(order) && Live(s, name) && c in s.registry[name].shardHashes
    requires exists length :: HeldOver(s.stores, over, c, length)
    ensures Delivered(s.stores, Rebalanced(hs, s, over, under, order).0.stores, over, under, c)
  {
    ListedNames(order, s.registry.Keys);
    LiveHashes(s, order(s.registry.Keys), name, c);
    hide Filed, FileOk, CopiedAll, HashesOf, Delivered, Lists, HeldOver;
    DeliveredAll(hs.chunk, s.stores, s.texts, HashesOf(s, order(s.registry.Keys)), over, under, c);
  }

  // ---------- how many move ----------

  /** A chunk of a live file that an over-full device holds and some under-full device with a store lacks. */
  ghost predicate ToMove(s: DiskState, over: seq<string>, under: seq<string>, c: Digest) {
    && (exists name :: Live(s, name) && c in s.registry[name].shardHashes)
    && (exists length :: HeldOver(s.stores, over, c, length))
    && exists i: nat :: FirstWithout(s.stores, under, c, i)
  }

  /** Where the chunk is to go. */
  ghost function Target(s: DiskState, over: seq<string>, under: seq<string>, c: Digest): (d: string)
    requires ToMove(s, over, under, c)
  {
    var i: nat :| FirstWithout(s.stores, under, c, i);
    under[i]
  }

  lemma TargetIsNew(s: DiskState, over: seq<string>, under: seq<string>, c: Digest)
    requires ToMove(s, over, under, c)
    ensures exists i: nat :: FirstWithout(s.stores, under, c, i) && under[i] == Target(s, over, under, c)
    ensures (Target(s, over, under, c), c) !in Pairs(s.stores)
  {
  }

  lemma {:induction false} PairsForChunks(s: DiskState, over: seq<string>, under: seq<string>, chunks: set<Digest>)
    requires forall c :: c in chunks ==> ToMove(s, over, under, c)
    ensures |set c | c in chunks :: (Target(s, over, under, c), c)| == |chunks|
  {
    hide ToMove, Target;
    if chunks == {} {
      assert (set c | c in chunks :: (Target(s, over, under, c), c)) == {};
    } else {
      var x :| x in chunks;
      PairsForChunks(s, over, under, chunks - {x});
      assert (set c | c in chunks :: (Target(s, over, under, c), c))
          == (set c | c in chunks - {x} :: (Target(s, over, under, c), c)) + {(Target(s, over, under, x), x)};
    }
  }

  /** If no under-full device is short of room, a rebalance counts at least as many copies as there are different chunks to
      move. */
  lemma RebalanceCounts(hs: Hashing, s: DiskState, over: seq<string>, under: seq<string>, order: Order, chunks: set<Digest>)
    requires WellFormed(hs, s) && Lists(order) && forall c :: c in chunks ==> ToMove(s, over, under, c)
    requires forall c, d, length ::
      c in chunks && d in under && d in Rebalanced(hs, s, over, under, order).0.stores && HeldOver(s.stores, over, c, length) ==>
        !Full(Rebalanced(hs, s, over, under, order).0.stores[d], length)
    ensures Rebalanced(hs, s, over, under, order).1 >= |chunks|
  {
    var hashes := HashesOf(s, order(s.registry.Keys));
    CopiesCounted(hs.chunk, s.stores, s.texts, hashes, over, under);
    RebalanceIs(hs, s, over, under, order);
    hide WellFormed, Lists, ToMove, Target, Pairs, FirstWithout, HeldOver, Full, Rebalanced, Delivered, CopiedAll, HashesOf;
    var t := Rebalanced(hs, s, over, under, order).0;
    var pairs := set c | c in chunks :: (Target(s, over, under, c), c);
    PairsForChunks(s, over, under, chunks);
    forall p | p in pairs
      ensures p in Pairs(t.stores) - Pairs(s.stores)
    {
      var c :| c in chunks && p == (Target(s, over, under, c), c);
      ChunkArrives(hs, s, over, under, order, c);
    }
    MoreThanBefore(pairs, Pairs(s.stores), Pairs(t.stores));
  }

  lemma MoreThanBefore(added: set<(string, Digest)>, before: set<(string, Digest)>, after: set<(string, Digest)>)
    requires before <= after && added <= after - before
    ensures |after| >= |before| + |added|
  {
    SubsetSize(added, after - before);
    assert after == before + (after - before);
  }

  lemma RebalanceIs(hs: Hashing, s: DiskState, over: seq<string>, under: seq<string>, order: Order)
    ensures
      var copied := CopiedAll(hs.chunk, s.stores, HashesOf(s, order(s.registry.Keys)), over, under);
      Rebalanced(hs, s, over, under, order) == (s.(stores := copied.0), copied.1)
  {
    hide CopiedAll, HashesOf;
  }

  lemma ChunkArrives(hs: Hashing, s: DiskState, over: seq<string>, under: seq<string>, order: Order, c: Digest)
    requires WellFormed(hs, s) && Lists(order) && ToMove(s, over, under, c)
    requires forall d, length ::
      d in under && d in Rebalanced(hs, s, over, under, order).0.stores && HeldOver(s.stores, over, c, length) ==>
        !Full(Rebalanced(hs, s, over, under, order).0.stores[d], length)
    ensures
      var p := (Target(s, over, under, c), c);
      p in Pairs(Rebalanced(hs, s, over, under, order).0.stores) && p !in Pairs(s.stores)
  {
    hide WellFormed, Lists, HeldOver, Full, Rebalanced, Target;
    TargetIsNew(s, over, under, c);
    var i: nat :| FirstWithout(s.stores, under, c, i) && under[i] == Target(s, over, under, c);
    var name :| Live(s, name) && c in s.registry[name].shardHashes;
    RebalanceDelivers(hs, s, over, under, order, name, c);
  }

  // ---------- what devices hold ----------

  /** The bytes of all chunks of an index. */
  ghost function BytesHeld(index: map<Digest, seq<Byte>>): nat {
    if index == map[] then 0
    else
      var d :| d in index;
      |index[d]| + BytesHeld(index - {d})
  }

  lemma {:induction false} BytesHeldWithout(index: map<Digest, seq<Byte>>, d: Digest)
    requires d in index
    ensures BytesHeld(index) == |index[d]| + BytesHeld(index - {d})
    decreases |index|
  {
    var e: Digest :| e in index && BytesHeld(index) == |index[e]| + BytesHeld(index - {e});
    if e != d {
      BytesHeldWithout(index - {e}, d);
      BytesHeldWithout(index - {d}, e);
      assert index - {e} - {d} == index - {d} - {e};
    }
  }

  lemma BytesHeldPut(index: map<Digest, seq<Byte>>, d: Digest, text: seq<Byte>)
    requires d in index ==> index[d] == text
    ensures BytesHeld(index[d := text]) == BytesHeld(index) + if d in index then 0 else |text|
  {
    if d in index {
      assert index[d := text] == index;
    } else {
      BytesHeldWithout(index[d := text], d);
      assert index[d := text] - {d} == index;
    }
  }

  function Capped(n: nat): nat {
    if n > U64_MAX then U64_MAX else n
  }

  /** A device counts the bytes it holds, and does not go past its capacity. */
  ghost predicate Metered(store: ChunkStore) {
    store.used == Capped(BytesHeld(store.index)) && (store.capacity > 0 ==> store.used <= store.capacity)
  }

  ghost predicate AllMetered(stores: Stores) {
    forall d :: d in stores ==> Metered(stores[d])
  }

  lemma PutMeters(h: Hash, stores: Stores, texts: set<seq<Byte>>, device: string, text: seq<Byte>)
    requires Filed(h, stores, texts) && CollisionFreeOn(h, texts) && text in texts && device in stores && Metered(stores[device])
    ensures PutBytes(stores[device], h, text).Stored? ==> Metered(PutBytes(stores[device], h, text).store)
  {
    var store, c := stores[device], h(text);
    assert c in store.index ==> store.index[c] in texts && h(store.index[c]) == c;
    BytesHeldPut(store.index, c, text);
  }

  lemma {:induction false} DealMeters(h: Hash, stores: Stores, shards: seq<Shard>, devices: seq<string>, texts: set<seq<Byte>>)
    requires devices != [] && Filed(h, stores, texts) && CollisionFreeOn(h, texts) && AllMetered(stores)
    requires forall i :: 0 <= i < |shards| ==> ElementBytes(shards[i].data) in texts
    ensures AllMetered(Deal(h, stores, shards, devices).stores)
  {
    hide PutBytes, Filed, ElementBytes, Metered, CollisionFreeOn;
    if shards != [] {
      var last := |shards| - 1;
      DealMeters(h, stores, shards[..last], devices, texts);
      DealKeeps(h, stores, shards[..last], devices, texts);
      var d := Deal(h, stores, shards[..last], devices);
      var device := devices[shards[last].index % |devices|];
      if device in d.stores {
        PutMeters(h, d.stores, texts, device, ElementBytes(shards[last].data));
      }
    }
  }

  lemma KeptMeters(hs: Hashing, s: DiskState, job: Job)
    requires WellFormed(hs, s) && job.Fits() && AllMetered(s.stores) && CollisionFreeOn(hs.chunk, Kept(hs, s, job).0.texts)
    ensures AllMetered(Kept(hs, s, job).0.stores)
  {
    KeptStores(hs, s, job);
    var shards := EncodeShards(job.data, job.k, job.N());
    MoreTexts(hs.chunk, s.stores, s.texts, shards);
    DealMeters(hs.chunk, s.stores, shards, job.devices, s.texts + TextsOf(shards));
  }

  lemma {:induction false} RewriteAllMeters(hs: Hashing, s: DiskState, rw: Rewrite, names: seq<string>, clock: nat -> nat, order: Order)
    requires WellFormed(hs, s) && RewriteOk(s, rw) && AllMetered(s.stores)
    requires CollisionFreeOn(hs.chunk, RewriteAll(hs, s, rw, names, clock, order).0.texts)
    ensures AllMetered(RewriteAll(hs, s, rw, names, clock, order).0.stores)
  {
    assert rw.Fits();
    if names != [] {
      var last := |names| - 1;
      RewriteSplit(hs, s, rw, names, clock, order);
      hide WellFormed, RewriteOne, RewriteOk, Extends, CollisionFreeOn, RewriteAll, AllMetered;
      RewriteAllKeeps(hs, s, rw, names[..last], clock, order);
      var mid := RewriteAll(hs, s, rw, names[..last], clock, order);
      if mid.1.Success? {
        RewriteOneKeeps(hs, mid.0, rw, names[last], clock(last), order);
        FewerTexts(hs.chunk, mid.0, RewriteOne(hs, mid.0, rw, names[last], clock(last), order).0);
        RewriteAllMeters(hs, s, rw, names[..last], clock, order);
        RewriteOneMeters(hs, mid.0, rw, names[last], clock(last), order);
      } else {
        RewriteAllMeters(hs, s, rw, names[..last], clock, order);
      }
    }
  }

  lemma RewriteOneMeters(hs: Hashing, s: DiskState, rw: Rewrite, name: string, now: nat, order: Order)
    requires WellFormed(hs, s) && rw.Fits() && AllMetered(s.stores)
    requires CollisionFreeOn(hs.chunk, RewriteOne(hs, s, rw, name, now, order).0.texts)
    ensures AllMetered(RewriteOne(hs, s, rw, name, now, order).0.stores)
  {
    hide WellFormed, Kept, Read, CollisionFreeOn, AllMetered;
    var read := Read(s, name, order);
    if read.Success? && rw.k > 0 {
      assert name in s.registry by { ReadIsLive(s, name, order); }
      KeptMeters(hs, s, rw.JobFor(name, read.value, s.registry[name].timestamp, now));
    }
  }

  lemma ReadIsLive(s: DiskState, name: string, order: Order)
    requires Read(s, name, order).Success?
    ensures Live(s, name)
  {
    if !Live(s, name) {
      NotLive(s, name, order);
    }
  }

  lemma {:induction false} CopiesMeter(h: Hash, stores: Stores, texts: set<seq<Byte>>, hashes: seq<Digest>, over: seq<string>, under: seq<string>)
    requires Filed(h, stores, texts) && CollisionFreeOn(h, texts) && AllMetered(stores)
    ensures AllMetered(CopiedAll(h, stores, hashes, over, under).0)
  {
    hide CopiedOne, Filed, AllMetered, CollisionFreeOn;
    if hashes != [] {
      var last := |hashes| - 1;
      CopiesMeter(h, stores, texts, hashes[..last], over, under);
      CopiedAllKeeps(h, stores, texts, hashes[..last], over, under);
      CopyMeters(h, CopiedAll(h, stores, hashes[..last], over, under).0, texts, hashes[last], over, under);
    }
  }

  lemma CopyMeters(h: Hash, stores: Stores, texts: set<seq<Byte>>, hash: Digest, over: seq<string>, under: seq<string>)
    requires Filed(h, stores, texts) && CollisionFreeOn(h, texts) && AllMetered(stores)
    ensures AllMetered(CopiedOne(h, stores, hash, over, under).0)
  {
    hide PutBytes, Metered, CollisionFreeOn;
    var from, to := FirstHolder(stores, over, hash, 0), FirstLacking(stores, under, hash, 0);
    if from < |over| && to < |under| {
      var text := stores[over[from]].index[hash];
      assert Canonical(text);
      PutMeters(h, stores, texts, under[to], text);
    }
  }

  /** On every run each device counts exactly the bytes of the chunks it holds, as a saturating counter shows them, and
      holds no more than its capacity, if it has one. */
  lemma {:induction false} RunsAreMetered(hs: Hashing, ops: seq<Operation>)
    requires CollisionFreeOn(hs.chunk, After(hs, ops).texts)
    ensures AllMetered(After(hs, ops).stores)
  {
    hide Next, WellFormed, CollisionFreeOn, Metered, Extends;
    if ops != [] {
      var last := |ops| - 1;
      PrefixExtends(hs, ops);
      FewerTexts(hs.chunk, After(hs, ops[..last]), After(hs, ops));
      RunsAreMetered(hs, ops[..last]);
      RunsAreWellFormed(hs, ops[..last]);
      NextMeters(hs, After(hs, ops[..last]), ops[last]);
    }
  }

  lemma NextMeters(hs: Hashing, s: DiskState, op: Operation)
    requires WellFormed(hs, s) && AllMetered(s.stores) && CollisionFreeOn(hs.chunk, Next(hs, s, op).texts)
    ensures AllMetered(Next(hs, s, op).stores)
  {
    assert Filed(hs.chunk, s.stores, s.texts);
    hide Kept, RewriteAll, OutdatedNames, CopiedAll, HashesOf, RewriteFor, PutJob, WellFormed, CollisionFreeOn, Metered, RewriteOk, JobOk, Filed;
    match op {
      case Attach(device, disk, capacity) => { EmptyIsMetered(capacity); }
      case PutFile(disk, fileName, data, now) => {
        var job := PutJob(s, disk, fileName, data, now);
        if job.Success? {
          KeptMeters(hs, s, job.value);
        }
      }
      case Rechunk(disk, clock, order) => {
        RewriteForOk(s, disk);
        var rw := RewriteFor(s, disk);
        if rw.Success? && rw.value.Some? {
          RewriteAllMeters(hs, s, rw.value.value, OutdatedNames(s, rw.value.value, order(s.registry.Keys)), clock, order);
        }
      }
      case Rebalance(over, under, order) => {
        CopiesMeter(hs.chunk, s.stores, s.texts, HashesOf(s, order(s.registry.Keys)), over, under);
      }
      case _ => {}
    }
  }

  lemma EmptyIsMetered(capacity: Amount)
    ensures Metered(EmptyStore(capacity))
  {
  }
}
