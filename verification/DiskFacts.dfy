/** What every operation of the virtual disk keeps (src/vdisk.rs:102-564): chunks under their own hashes, entries that
    describe their files, shards where they were dealt, and sizes that fit the disk; and when a file reads. */
module DiskFacts {
  import opened Bytes
  import opened Erasure
  import opened Chunks
  import opened Words
  import opened DiskStates
  import Sequences

  const MAX_DEVICES: nat := 0x1_0000_0000

  // ---------- stores ----------

  ghost predicate Canonical(text: seq<Byte>) {
    ElementBytes(BytesElements(text)) == text
  }

  /** Chunks are under their own hashes, and were hashed; every text hashed is the byte form of a shard. */
  ghost predicate Filed(h: Hash, stores: Stores, texts: set<seq<Byte>>) {
    && (forall d :: d in stores ==> Addressed(stores[d], h))
    && (forall d, c :: d in stores && c in stores[d].index ==> stores[d].index[c] in texts)
    && forall t :: t in texts ==> Canonical(t)
  }

  /** No store and no chunk goes. */
  ghost predicate AllGrow(a: Stores, b: Stores) {
    forall d :: d in a ==> d in b && Grows(a[d], b[d])
  }

  lemma AllGrowTrans(a: Stores, b: Stores, c: Stores)
    requires AllGrow(a, b) && AllGrow(b, c)
    ensures AllGrow(a, c)
  {
  }

  lemma PutGrows(h: Hash, stores: Stores, texts: set<seq<Byte>>, device: string, text: seq<Byte>)
    requires Filed(h, stores, texts) && text in texts && device in stores && PutBytes(stores[device], h, text).Stored?
    ensures
      var put := PutBytes(stores[device], h, text);
      && Filed(h, stores[device := put.store], texts) && AllGrow(stores, stores[device := put.store])
      && put.hash == h(text) && Holds(stores[device := put.store], device, put.hash)
  {
    hide Canonical;
    PutKeepsAddressing(stores[device], h, text);
  }

  /** Dealing loses nothing. */
  lemma {:induction false} DealKeeps(h: Hash, stores: Stores, shards: seq<Shard>, devices: seq<string>, texts: set<seq<Byte>>)
    requires devices != [] && Filed(h, stores, texts)
    requires forall i :: 0 <= i < |shards| ==> ElementBytes(shards[i].data) in texts
    ensures
      var d := Deal(h, stores, shards, devices);
      Filed(h, d.stores, texts) && AllGrow(stores, d.stores) && d.stores.Keys == stores.Keys
  {
    hide PutBytes, Filed, Grows, ElementBytes;
    if shards != [] {
      var before := shards[..|shards| - 1];
      DealKeeps(h, stores, before, devices, texts);
      var d, shard := Deal(h, stores, before, devices), shards[|shards| - 1];
      var device := devices[shard.index % |devices|];
      if d.complete && device in d.stores && PutBytes(d.stores[device], h, ElementBytes(shard.data)).Stored? {
        PutGrows(h, d.stores, texts, device, ElementBytes(shard.data));
        AllGrowTrans(stores, d.stores, Deal(h, stores, shards, devices).stores);
      }
    } else {
      assert AllGrow(stores, stores) by { GrowsItself(stores); }
    }
  }

  lemma GrowsItself(stores: Stores)
    ensures AllGrow(stores, stores)
  {
  }

  /** Shard i is stored under its hash, on device i modulo the number of devices. */
  ghost predicate DealtTo(h: Hash, stores: Stores, shards: seq<Shard>, devices: seq<string>, hashes: seq<Digest>)
    requires devices != []
  {
    && |hashes| == |shards|
    && forall i :: 0 <= i < |shards| ==> hashes[i] == h(ElementBytes(shards[i].data)) && Holds(stores, devices[i % |devices|], hashes[i])
  }

  lemma DealtMore(h: Hash, a: Stores, b: Stores, shards: seq<Shard>, shard: Shard, devices: seq<string>, hashes: seq<Digest>)
    requires devices != [] && DealtTo(h, a, shards, devices, hashes) && AllGrow(a, b)
    requires Holds(b, devices[|shards| % |devices|], h(ElementBytes(shard.data)))
    ensures DealtTo(h, b, shards + [shard], devices, hashes + [h(ElementBytes(shard.data))])
  {
    hide ElementBytes;
  }

  lemma {:induction false} DealPlaces(h: Hash, stores: Stores, shards: seq<Shard>, devices: seq<string>, texts: set<seq<Byte>>)
    requires devices != [] && Filed(h, stores, texts)
    requires forall i :: 0 <= i < |shards| ==> ElementBytes(shards[i].data) in texts && shards[i].index == i
    requires forall d :: d in devices ==> d in stores
    ensures
      var d := Deal(h, stores, shards, devices);
      d.complete ==> DealtTo(h, d.stores, shards, devices, d.hashes)
  {
    hide PutBytes, Filed, ElementBytes, AllGrow, DealtTo;
    if shards == [] {
      NothingDealt(h, stores, devices);
    } else {
      var before := shards[..|shards| - 1];
      DealPlaces(h, stores, before, devices, texts);
      DealKeeps(h, stores, before, devices, texts);
      var d, shard := Deal(h, stores, before, devices), shards[|shards| - 1];
      var device := devices[shard.index % |devices|];
      if d.complete && PutBytes(d.stores[device], h, ElementBytes(shard.data)).Stored? {
        PutGrows(h, d.stores, texts, device, ElementBytes(shard.data));
        DealtMore(h, d.stores, Deal(h, stores, shards, devices).stores, before, shard, devices, d.hashes);
        assert before + [shard] == shards;
      }
    }
  }

  lemma NothingDealt(h: Hash, stores: Stores, devices: seq<string>)
    requires devices != []
    ensures DealtTo(h, stores, [], devices, [])
  {
  }

  // ---------- entries ----------

  /** The entry is that of its file's encoding, and the shards were hashed. */
  ghost predicate Describes(h: Hash, e: FileEntry, o: Origin, texts: set<seq<Byte>>) {
    && 1 <= e.k <= |o.devices| <= e.n && IsPowerOfTwo(e.n) && e.originalLen == |o.data| && |e.shardHashes| == e.n
    && forall i :: 0 <= i < e.n ==>
         ElementBytes(EncodedShard(o.data, e.k, e.n, i).data) in texts
         && e.shardHashes[i] == h(ElementBytes(EncodedShard(o.data, e.k, e.n, i).data))
  }

  /** Shard i is stored on device i modulo the number of devices. */
  ghost predicate Placed(e: FileEntry, o: Origin, stores: Stores) {
    o.devices != []
    && forall i :: 0 <= i < |e.shardHashes| ==> Holds(stores, o.devices[i % |o.devices|], e.shardHashes[i])
  }

  /** The devices are the first ones attached to the disk, and the sizes are those the disk asks for. */
  ghost predicate Sized(s: DiskState, e: FileEntry, o: Origin) {
    && o.disk in s.disks && o.devices <= DevicesOn(s.attachments, o.disk) && o.devices != []
    && ToleranceFits(s.disks[o.disk].redundancy, |o.devices|)
    && e.k == RequiredShards(s.disks[o.disk].redundancy, |o.devices|) && e.n == NextPowerOfTwo(|o.devices|)
  }

  ghost predicate FileOk(hs: Hashing, s: DiskState, name: string)
    requires name in s.registry && name in s.origin
  {
    && s.registry[name].name == name
    && Describes(hs.chunk, s.registry[name], s.origin[name], s.texts)
    && Placed(s.registry[name], s.origin[name], s.stores)
    && Sized(s, s.registry[name], s.origin[name])
  }

  ghost predicate Connected(s: DiskState) {
    forall i :: 0 <= i < |s.attachments| ==> s.attachments[i].deviceName in s.stores && s.attachments[i].diskName in s.disks
  }

  ghost predicate WellFormed(hs: Hashing, s: DiskState) {
    && Filed(hs.chunk, s.stores, s.texts) && Connected(s)
    && s.registry.Keys == s.origin.Keys
    && forall name :: name in s.registry ==> FileOk(hs, s, name)
  }

  /** Nothing that a file rests on goes. */
  ghost predicate Extends(s: DiskState, t: DiskState) {
    && AllGrow(s.stores, t.stores) && s.texts <= t.texts
    && (forall d :: d in s.disks ==> d in t.disks && t.disks[d] == s.disks[d])
    && s.attachments <= t.attachments
  }

  lemma ExtendsTrans(s: DiskState, t: DiskState, u: DiskState)
    requires Extends(s, t) && Extends(t, u)
    ensures Extends(s, u)
  {
    hide Grows;
    AllGrowTrans(s.stores, t.stores, u.stores);
  }

  lemma ExtendsItself(s: DiskState)
    ensures Extends(s, s)
  {
  }

  lemma {:induction false} DevicesGrow(a: seq<DeviceAttachment>, b: seq<DeviceAttachment>, disk: string)
    requires a <= b
    ensures DevicesOn(a, disk) <= DevicesOn(b, disk)
    decreases |b|
  {
    if a != b {
      assert a <= b[..|b| - 1];
      DevicesGrow(a, b[..|b| - 1], disk);
    }
  }

  lemma {:induction false} DevicesAreStored(s: DiskState, attachments: seq<DeviceAttachment>, disk: string)
    requires forall i :: 0 <= i < |attachments| ==> attachments[i].deviceName in s.stores
    ensures forall d :: d in DevicesOn(attachments, disk) ==> d in s.stores
  {
    if attachments != [] {
      DevicesAreStored(s, attachments[..|attachments| - 1], disk);
    }
  }

  lemma SizedStays(s: DiskState, t: DiskState, e: FileEntry, o: Origin)
    requires Sized(s, e, o) && Extends(s, t)
    ensures Sized(t, e, o)
  {
    hide AllGrow;
    DevicesGrow(s.attachments, t.attachments, o.disk);
  }

  lemma FileStays(hs: Hashing, s: DiskState, t: DiskState, name: string)
    requires name in s.registry && name in s.origin && FileOk(hs, s, name) && Extends(s, t)
    requires name in t.registry && name in t.origin && t.registry[name] == s.registry[name] && t.origin[name] == s.origin[name]
    ensures FileOk(hs, t, name)
  {
    SizedStays(s, t, s.registry[name], s.origin[name]);
    hide Sized, ElementBytes, EncodedShard;
  }

  lemma FilesStay(hs: Hashing, s: DiskState, t: DiskState)
    requires WellFormed(hs, s) && Extends(s, t) && t.registry == s.registry && t.origin == s.origin
    requires Filed(hs.chunk, t.stores, t.texts) && Connected(t)
    ensures WellFormed(hs, t)
  {
    hide FileOk, Extends, Filed, Connected;
    forall name | name in t.registry
      ensures FileOk(hs, t, name)
    {
      FileStays(hs, s, t, name);
    }
  }

  // ---------- storing keeps all ----------

  /** A job for the devices that a disk has. */
  ghost predicate JobOk(s: DiskState, job: Job) {
    && job.Fits() && job.disk in s.disks && job.devices == DevicesOn(s.attachments, job.disk)
    && ToleranceFits(s.disks[job.disk].redundancy, |job.devices|)
    && job.k == RequiredShards(s.disks[job.disk].redundancy, |job.devices|)
  }

  lemma TextsCanonical(shards: seq<Shard>, t: seq<Byte>)
    requires t in TextsOf(shards)
    ensures Canonical(t)
  {
    var i :| 0 <= i < |shards| && t == ElementBytes(shards[i].data);
    BytesElementsInverse(shards[i].data);
  }

  lemma MoreTexts(h: Hash, stores: Stores, texts: set<seq<Byte>>, shards: seq<Shard>)
    requires Filed(h, stores, texts)
    ensures Filed(h, stores, texts + TextsOf(shards))
    ensures forall i :: 0 <= i < |shards| ==> ElementBytes(shards[i].data) in texts + TextsOf(shards)
  {
    hide Canonical, ElementBytes;
    forall t | t in TextsOf(shards)
      ensures Canonical(t)
    {
      TextsCanonical(shards, t);
    }
  }

  lemma LaidKeeps(hs: Hashing, s: DiskState, job: Job)
    requires WellFormed(hs, s) && JobOk(s, job)
    ensures WellFormed(hs, Laid(hs, s, job).0) && Extends(s, Laid(hs, s, job).0)
    ensures Laid(hs, s, job).1.Some? ==>
      var e, o := Laid(hs, s, job).1.value, job.AsOrigin();
      e.name == job.name && Describes(hs.chunk, e, o, Laid(hs, s, job).0.texts) && Placed(e, o, Laid(hs, s, job).0.stores)
      && Sized(Laid(hs, s, job).0, e, o) && e.timestamp == job.timestamp && !e.deleted
  {
    hide Filed, Deal, Grows, FileOk, Canonical, ElementBytes, EncodedShard, TextsOf, DealtTo;
    var shards := EncodeShards(job.data, job.k, job.N());
    var texts := s.texts + TextsOf(shards);
    MoreTexts(hs.chunk, s.stores, s.texts, shards);
    DealKeeps(hs.chunk, s.stores, shards, job.devices, texts);
    DevicesAreStored(s, s.attachments, job.disk);
    ShardsNumbered(job.data, job.k, job.N());
    DealPlaces(hs.chunk, s.stores, shards, job.devices, texts);
    var laid := Laid(hs, s, job).0;
    assert Extends(s, laid);
    ConnectedStays(s, laid);
    FilesStay(hs, s, laid);
    if Laid(hs, s, job).1.Some? {
      DealtIsPlaced(hs, laid.stores, job, Deal(hs.chunk, s.stores, shards, job.devices).hashes, texts);
    }
  }

  lemma ConnectedStays(s: DiskState, t: DiskState)
    requires Connected(s) && AllGrow(s.stores, t.stores) && t.attachments == s.attachments && t.disks == s.disks
    ensures Connected(t)
  {
  }

  lemma ShardsNumbered(data: seq<Byte>, k: nat, n: nat)
    requires 1 <= k <= n
    ensures forall i :: 0 <= i < n ==> EncodeShards(data, k, n)[i].index == i
  {
  }

  lemma DealtIsPlaced(hs: Hashing, stores: Stores, job: Job, hashes: seq<Digest>, texts: set<seq<Byte>>)
    requires job.Fits() && DealtTo(hs.chunk, stores, EncodeShards(job.data, job.k, job.N()), job.devices, hashes)
    requires forall i :: 0 <= i < job.N() ==> ElementBytes(EncodeShards(job.data, job.k, job.N())[i].data) in texts
    ensures
      var e := EntryOf(hs, job.name, job.data, job.k, job.N(), hashes, job.timestamp, job.shardCopies);
      Describes(hs.chunk, e, job.AsOrigin(), texts) && Placed(e, job.AsOrigin(), stores)
  {
    hide ElementBytes, EncodedShard, Das.Commit;
  }

  lemma RegisteredKeeps(hs: Hashing, s: DiskState, e: FileEntry, o: Origin)
    requires WellFormed(hs, s)
    requires Describes(hs.chunk, e, o, s.texts) && Placed(e, o, s.stores) && Sized(s, e, o)
    ensures WellFormed(hs, Registered(s, e, o)) && Extends(s, Registered(s, e, o))
  {
    hide Filed, Describes, Placed, Supersedes;
    GrowsItself(s.stores);
    var t := Registered(s, e, o);
    ConnectedStays(s, t);
    forall name | name in t.registry
      ensures FileOk(hs, t, name)
    {
      if t.registry[name] == e && t.origin[name] == o {
        SizedStays(s, t, e, o);
      } else {
        FileStays(hs, s, t, name);
      }
    }
  }

  lemma KeptKeeps(hs: Hashing, s: DiskState, job: Job)
    requires WellFormed(hs, s) && JobOk(s, job)
    ensures WellFormed(hs, Kept(hs, s, job).0) && Extends(s, Kept(hs, s, job).0)
    ensures Kept(hs, s, job).0.disks == s.disks && Kept(hs, s, job).0.attachments == s.attachments
  {
    hide WellFormed, Extends, Describes, Placed, Sized;
    LaidKeeps(hs, s, job);
    var (laid, entry) := Laid(hs, s, job);
    if entry.Some? {
      RegisteredKeeps(hs, laid, entry.value, job.AsOrigin());
      ExtendsTrans(s, laid, Registered(laid, entry.value, job.AsOrigin()));
    }
  }

  // ---------- operations keep all ----------

  lemma CreatedKeeps(hs: Hashing, s: DiskState, config: DiskConfig)
    requires WellFormed(hs, s)
    ensures WellFormed(hs, Created(s, config).0) && Extends(s, Created(s, config).0)
  {
    hide Filed, FileOk, Grows;
    GrowsItself(s.stores);
    FilesStay(hs, s, Created(s, config).0);
  }

  lemma AttachedKeeps(hs: Hashing, s: DiskState, device: string, disk: string, capacity: Amount)
    requires WellFormed(hs, s)
    ensures WellFormed(hs, Attached(s, device, disk, capacity).0) && Extends(s, Attached(s, device, disk, capacity).0)
  {
    hide FileOk, Canonical;
    FilesStay(hs, s, Attached(s, device, disk, capacity).0);
  }

  lemma PutJobOk(s: DiskState, disk: string, fileName: string, data: seq<Byte>, now: nat)
    ensures PutJob(s, disk, fileName, data, now).Success? ==> JobOk(s, PutJob(s, disk, fileName, data, now).value)
  {
  }

  lemma PutKeeps(hs: Hashing, s: DiskState, disk: string, fileName: string, data: seq<Byte>, now: nat)
    requires WellFormed(hs, s)
    ensures WellFormed(hs, Put(hs, s, disk, fileName, data, now).0) && Extends(s, Put(hs, s, disk, fileName, data, now).0)
  {
    hide WellFormed, Extends, Kept, PutJob, JobOk;
    PutJobOk(s, disk, fileName, data, now);
    ExtendsItself(s);
    var job := PutJob(s, disk, fileName, data, now);
    if job.Success? {
      KeptKeeps(hs, s, job.value);
    }
  }

  /** A rechunk for the devices that a disk has. */
  ghost predicate RewriteOk(s: DiskState, rw: Rewrite) {
    && rw.Fits() && rw.disk in s.disks && rw.devices == DevicesOn(s.attachments, rw.disk)
    && (rw.k > 0 ==> ToleranceFits(s.disks[rw.disk].redundancy, |rw.devices|)
                     && rw.k == RequiredShards(s.disks[rw.disk].redundancy, |rw.devices|))
  }

  lemma RewriteOneKeeps(hs: Hashing, s: DiskState, rw: Rewrite, name: string, now: nat, order: Order)
    requires WellFormed(hs, s) && RewriteOk(s, rw)
    ensures
      var t := RewriteOne(hs, s, rw, name, now, order).0;
      WellFormed(hs, t) && Extends(s, t) && RewriteOk(t, rw) && t.disks == s.disks && t.attachments == s.attachments
  {
    hide WellFormed, Extends, Kept, DecodeShards, Collected;
    ExtendsItself(s);
    var read := Read(s, name, order);
    if read.Success? && rw.k > 0 {
      KeptKeeps(hs, s, rw.JobFor(name, read.value, s.registry[name].timestamp, now));
    }
  }

  lemma {:induction false} RewriteAllKeeps(hs: Hashing, s: DiskState, rw: Rewrite, names: seq<string>, clock: nat -> nat, order: Order)
    requires WellFormed(hs, s) && RewriteOk(s, rw)
    ensures
      var t := RewriteAll(hs, s, rw, names, clock, order).0;
      WellFormed(hs, t) && Extends(s, t) && RewriteOk(t, rw) && t.disks == s.disks && t.attachments == s.attachments
  {
    assert rw.Fits();
    hide WellFormed, Extends, RewriteOne, RewriteOk;
    ExtendsItself(s);
    if names != [] {
      var before := names[..|names| - 1];
      RewriteAllKeeps(hs, s, rw, before, clock, order);
      var mid := RewriteAll(hs, s, rw, before, clock, order);
      if mid.1.Success? {
        RewriteOneKeeps(hs, mid.0, rw, names[|names| - 1], clock(|names| - 1), order);
        ExtendsTrans(s, mid.0, RewriteAll(hs, s, rw, names, clock, order).0);
      }
    }
  }

  lemma RewriteForOk(s: DiskState, disk: string)
    ensures RewriteFor(s, disk).Success? && RewriteFor(s, disk).value.Some? ==> RewriteOk(s, RewriteFor(s, disk).value.value)
  {
  }

  lemma RechunkedKeeps(hs: Hashing, s: DiskState, disk: string, clock: nat -> nat, order: Order)
    requires WellFormed(hs, s)
    ensures WellFormed(hs, Rechunked(hs, s, disk, clock, order).0) && Extends(s, Rechunked(hs, s, disk, clock, order).0)
  {
    hide WellFormed, Extends, RewriteAll, RewriteOk, RewriteFor, OutdatedNames;
    ExtendsItself(s);
    RewriteForOk(s, disk);
    var rw := RewriteFor(s, disk);
    if rw.Success? && rw.value.Some? {
      RewriteAllKeeps(hs, s, rw.value.value, OutdatedNames(s, rw.value.value, order(s.registry.Keys)), clock, order);
    }
  }

  lemma CopiedOneKeeps(h: Hash, stores: Stores, texts: set<seq<Byte>>, hash: Digest, over: seq<string>, under: seq<string>)
    requires Filed(h, stores, texts)
    ensures
      var t := CopiedOne(h, stores, hash, over, under).0;
      Filed(h, t, texts) && AllGrow(stores, t) && t.Keys == stores.Keys
  {
    hide PutBytes, Grows;
    GrowsItself(stores);
    var from, to := FirstHolder(stores, over, hash, 0), FirstLacking(stores, under, hash, 0);
    if from < |over| && to < |under| {
      var text := stores[over[from]].index[hash];
      assert Canonical(text);
      if PutBytes(stores[under[to]], h, text).Stored? {
        PutGrows(h, stores, texts, under[to], text);
      }
    }
  }

  lemma {:induction false} CopiedAllKeeps(h: Hash, stores: Stores, texts: set<seq<Byte>>, hashes: seq<Digest>, over: seq<string>, under: seq<string>)
    requires Filed(h, stores, texts)
    ensures
      var t := CopiedAll(h, stores, hashes, over, under).0;
      Filed(h, t, texts) && AllGrow(stores, t) && t.Keys == stores.Keys
  {
    hide CopiedOne, Filed, AllGrow;
    GrowsItself(stores);
    if hashes != [] {
      var before := hashes[..|hashes| - 1];
      CopiedAllKeeps(h, stores, texts, before, over, under);
      var mid := CopiedAll(h, stores, before, over, under).0;
      CopiedOneKeeps(h, mid, texts, hashes[|hashes| - 1], over, under);
      AllGrowTrans(stores, mid, CopiedAll(h, stores, hashes, over, under).0);
    }
  }

  /** Which device holds which chunk. */
  ghost function Pairs(stores: Stores): set<(string, Digest)> {
    set d, c | d in stores && c in stores[d].index :: (d, c)
  }

  ghost predicate HeldBySome(stores: Stores, devices: seq<string>, c: Digest) {
    exists d :: d in devices && Holds(stores, d, c)
  }

  lemma StillHeld(a: Stores, b: Stores, devices: seq<string>)
    requires AllGrow(a, b)
    ensures forall c :: HeldBySome(a, devices, c) ==> HeldBySome(b, devices, c)
  {
    forall c | HeldBySome(a, devices, c)
      ensures HeldBySome(b, devices, c)
    {
      var d :| d in devices && Holds(a, d, c);
      assert Holds(b, d, c);
    }
  }

  lemma CopiedOnePair(h: Hash, stores: Stores, texts: set<seq<Byte>>, hash: Digest, over: seq<string>, under: seq<string>)
    requires Filed(h, stores, texts)
    ensures
      var (t, copied) := CopiedOne(h, stores, hash, over, under);
      if copied
      then HeldBySome(stores, over, hash)
           && exists d :: d in under && (d, hash) !in Pairs(stores) && Pairs(t) == Pairs(stores) + {(d, hash)}
      else t == stores
  {
    hide Grows, ElementBytes, BytesElements;
    var from, to := FirstHolder(stores, over, hash, 0), FirstLacking(stores, under, hash, 0);
    if from < |over| && to < |under| {
      var text := stores[over[from]].index[hash];
      assert Canonical(text) && h(text) == hash;
      var put := PutBytes(stores[under[to]], h, text);
      if put.Stored? {
        assert Pairs(stores[under[to] := put.store]) == Pairs(stores) + {(under[to], hash)};
      }
    }
  }

  /** The number that a rebalance returns is that of the copies made: every one a chunk on an under-full device that lacked
      it and held by an over-full one, and nothing is taken away. */
  lemma {:induction false} CopiesCounted(h: Hash, stores: Stores, texts: set<seq<Byte>>, hashes: seq<Digest>, over: seq<string>, under: seq<string>)
    requires Filed(h, stores, texts)
    ensures
      var (t, count) := CopiedAll(h, stores, hashes, over, under);
      && Pairs(stores) <= Pairs(t) && |Pairs(t)| == |Pairs(stores)| + count
      && forall p :: p in Pairs(t) - Pairs(stores) ==> p.0 in under && p.1 in hashes && HeldBySome(t, over, p.1)
  {
    hide CopiedOne, Filed, Pairs, HeldBySome, AllGrow;
    if hashes != [] {
      var last := |hashes| - 1;
      CopiesCounted(h, stores, texts, hashes[..last], over, under);
      CopiedAllKeeps(h, stores, texts, hashes[..last], over, under);
      var mid := CopiedAll(h, stores, hashes[..last], over, under).0;
      CopiedOnePair(h, mid, texts, hashes[last], over, under);
      CopiedOneKeeps(h, mid, texts, hashes[last], over, under);
      StillHeld(mid, CopiedOne(h, mid, hashes[last], over, under).0, over);
    }
  }

  lemma RebalancedKeeps(hs: Hashing, s: DiskState, over: seq<string>, under: seq<string>, order: Order)
    requires WellFormed(hs, s)
    ensures WellFormed(hs, Rebalanced(hs, s, over, under, order).0) && Extends(s, Rebalanced(hs, s, over, under, order).0)
  {
    hide Filed, FileOk, Grows, CopiedAll, HashesOf;
    CopiedAllKeeps(hs.chunk, s.stores, s.texts, HashesOf(s, order(s.registry.Keys)), over, under);
    FilesStay(hs, s, Rebalanced(hs, s, over, under, order).0);
  }

  /** Every operation, whatever its outcome, keeps every file described, placed and sized, and takes nothing away. */
  lemma NextKeeps(hs: Hashing, s: DiskState, op: Operation)
    requires WellFormed(hs, s)
    ensures WellFormed(hs, Next(hs, s, op)) && Extends(s, Next(hs, s, op))
  {
    hide WellFormed, Extends, Put, Rechunked, Rebalanced;
    match op {
      case CreateDisk(config) => { CreatedKeeps(hs, s, config); }
      case Attach(device, disk, capacity) => { AttachedKeeps(hs, s, device, disk, capacity); }
      case PutFile(disk, fileName, data, now) => { PutKeeps(hs, s, disk, fileName, data, now); }
      case Rechunk(disk, clock, order) => { RechunkedKeeps(hs, s, disk, clock, order); }
      case Rebalance(over, under, order) => { RebalancedKeeps(hs, s, over, under, order); }
    }
  }

  lemma {:induction false} RunsAreWellFormed(hs: Hashing, ops: seq<Operation>)
    ensures WellFormed(hs, After(hs, ops))
  {
    hide WellFormed, Next;
    if ops == [] {
      assert WellFormed(hs, Empty()) by { EmptyWellFormed(hs); }
    } else {
      RunsAreWellFormed(hs, ops[..|ops| - 1]);
      NextKeeps(hs, After(hs, ops[..|ops| - 1]), ops[|ops| - 1]);
    }
  }

  lemma EmptyWellFormed(hs: Hashing)
    ensures WellFormed(hs, Empty())
  {
  }

  // ---------- reading ----------

  ghost predicate Held(hash: Digest, stores: Stores) {
    exists d :: Holds(stores, d, hash)
  }

  /** The shard positions below m that some store holds, in order. */
  ghost function HeldPositions(hashes: seq<Digest>, stores: Stores, m: nat): seq<nat>
    requires m <= |hashes|
  {
    if m == 0 then []
    else if Held(hashes[m - 1], stores) then HeldPositions(hashes, stores, m - 1) + [m - 1]
    else HeldPositions(hashes, stores, m - 1)
  }

  lemma {:induction false} HeldPositionsRise(hashes: seq<Digest>, stores: Stores, m: nat)
    requires m <= |hashes|
    ensures var r := HeldPositions(hashes, stores, m);
            && (forall j :: 0 <= j < |r| ==> r[j] < m && Held(hashes[r[j]], stores))
            && (forall i, j :: 0 <= i < j < |r| ==> r[i] < r[j])
  {
    if m > 0 {
      HeldPositionsRise(hashes, stores, m - 1);
      assert HeldPositions(hashes, stores, m) ==
             HeldPositions(hashes, stores, m - 1) + if Held(hashes[m - 1], stores) then [m - 1] else [];
    }
  }

  /** The shards of an encoding at these positions. */
  ghost predicate AtPositions(available: seq<Shard>, positions: seq<nat>, data: seq<Byte>, k: nat, n: nat)
    requires 1 <= k <= n
  {
    && |available| == |positions|
    && forall j :: 0 <= j < |available| ==> positions[j] < n && available[j] == EncodedShard(data, k, n, positions[j])
  }

  lemma PositionsSuffice(available: seq<Shard>, positions: seq<nat>, data: seq<Byte>, k: nat, n: nat)
    requires 1 <= k <= n && AtPositions(available, positions, data, k, n)
    requires forall i, j :: 0 <= i < j < |positions| ==> positions[i] < positions[j]
    ensures DistinctIndices(available) && EncodedFrom(available, data, k, n)
  {
    forall j | 0 <= j < |available|
      ensures available[j].index == positions[j]
    {
      assert EncodedShard(data, k, n, positions[j]).index == positions[j];
    }
  }

  /** Where no two texts hashed collide, the chunk filed under an entry's i-th hash, on any device, is the i-th shard. */
  lemma ChunkIsShard(h: Hash, e: FileEntry, o: Origin, stores: Stores, texts: set<seq<Byte>>, i: nat, d: string)
    requires Filed(h, stores, texts) && CollisionFreeOn(h, texts) && Describes(h, e, o, texts)
    requires i < e.n && Holds(stores, d, e.shardHashes[i])
    ensures BytesToShard(i, stores[d].index[e.shardHashes[i]]) == EncodedShard(o.data, e.k, e.n, i)
  {
    hide ElementBytes;
    var shard := EncodedShard(o.data, e.k, e.n, i);
    assert stores[d].index[e.shardHashes[i]] == ElementBytes(shard.data);
    BytesElementsInverse(shard.data);
  }

  /** Listing all stores finds exactly the chunks held. */
  lemma FoundIffHeld(stores: Stores, devices: seq<string>, hash: Digest)
    requires Sequences.Elements(devices) == stores.Keys
    ensures FirstHolder(stores, devices, hash, 0) < |devices| <==> Held(hash, stores)
  {
    if d :| Holds(stores, d, hash) {
      assert d in Sequences.Elements(devices);
      var j :| 0 <= j < |devices| && devices[j] == d;
      assert Holds(stores, devices[j], hash);
    }
  }

  /** What is collected are the shards at the positions held. */
  lemma CollectedLast(stores: Stores, devices: seq<string>, hashes: seq<Digest>, m: nat) returns (d: string)
    requires 0 < m <= |hashes| && Sequences.Elements(devices) == stores.Keys
    ensures Held(hashes[m - 1], stores) ==>
      && Holds(stores, d, hashes[m - 1])
      && Collected(stores, devices, hashes[..m]) ==
         Collected(stores, devices, hashes[..m - 1]) + [BytesToShard(m - 1, stores[d].index[hashes[m - 1]])]
    ensures !Held(hashes[m - 1], stores) ==> Collected(stores, devices, hashes[..m]) == Collected(stores, devices, hashes[..m - 1])
  {
    FoundIffHeld(stores, devices, hashes[m - 1]);
    hide BytesToShard, Sequences.Elements, Held;
    assert hashes[..m][..m - 1] == hashes[..m - 1];
    var holder := FirstHolder(stores, devices, hashes[m - 1], 0);
    d := if holder < |devices| then devices[holder] else "";
  }

  lemma HeldLast(hashes: seq<Digest>, stores: Stores, m: nat)
    requires 0 < m <= |hashes|
    ensures Held(hashes[m - 1], stores) ==> HeldPositions(hashes, stores, m) == HeldPositions(hashes, stores, m - 1) + [m - 1]
    ensures !Held(hashes[m - 1], stores) ==> HeldPositions(hashes, stores, m) == HeldPositions(hashes, stores, m - 1)
  {
    hide Held;
  }

  lemma OneMoreShard(available: seq<Shard>, positions: seq<nat>, data: seq<Byte>, k: nat, n: nat, i: nat)
    requires 1 <= k <= n && i < n && AtPositions(available, positions, data, k, n)
    ensures AtPositions(available + [EncodedShard(data, k, n, i)], positions + [i], data, k, n)
  {
    hide EncodedShard;
  }

  lemma {:induction false} CollectedAtHeld(h: Hash, e: FileEntry, o: Origin, stores: Stores, texts: set<seq<Byte>>, devices: seq<string>, m: nat)
    requires 1 <= e.k <= e.n == |e.shardHashes| && m <= e.n && Sequences.Elements(devices) == stores.Keys
    requires Filed(h, stores, texts) && CollisionFreeOn(h, texts) && Describes(h, e, o, texts)
    ensures AtPositions(Collected(stores, devices, e.shardHashes[..m]), HeldPositions(e.shardHashes, stores, m), o.data, e.k, e.n)
  {
    hide *;
    if m == 0 {
      NothingCollected(e, stores, devices, o.data);
    } else {
      var d := CollectedLast(stores, devices, e.shardHashes, m);
      HeldLast(e.shardHashes, stores, m);
      CollectedAtHeld(h, e, o, stores, texts, devices, m - 1);
      if Held(e.shardHashes[m - 1], stores) {
        ChunkIsShard(h, e, o, stores, texts, m - 1, d);
        OneMoreShard(Collected(stores, devices, e.shardHashes[..m - 1]), HeldPositions(e.shardHashes, stores, m - 1), o.data, e.k, e.n, m - 1);
      }
    }
  }

  lemma NothingCollected(e: FileEntry, stores: Stores, devices: seq<string>, data: seq<Byte>)
    requires 1 <= e.k <= e.n
    ensures AtPositions(Collected(stores, devices, e.shardHashes[..0]), HeldPositions(e.shardHashes, stores, 0), data, e.k, e.n)
  {
  }

  /** A live file reads as its data exactly if at least k of its shard positions are held, by any store, in any order of
      looking; with fewer it fails. */
  lemma ReadsIff(hs: Hashing, s: DiskState, name: string, order: Order)
    requires Live(s, name) && name in s.origin && Describes(hs.chunk, s.registry[name], s.origin[name], s.texts)
    requires Filed(hs.chunk, s.stores, s.texts) && CollisionFreeOn(hs.chunk, s.texts)
    requires s.registry[name].n <= MAX_DEVICES && Lists(order)
    ensures Read(s, name, order) ==
            if |HeldPositions(s.registry[name].shardHashes, s.stores, s.registry[name].n)| >= s.registry[name].k
            then Success(s.origin[name].data) else Failure("not enough shards available")
  {
    hide Filed, CollisionFreeOn, EncodedShard, ElementBytes, Held, HeldPositions, DecodeShards, Collected, AtPositions,
      DistinctIndices, EncodedFrom;
    var e, o := s.registry[name], s.origin[name];
    var devices := order(s.stores.Keys);
    var available := Collected(s.stores, devices, e.shardHashes);
    CollectedAtHeld(hs.chunk, e, o, s.stores, s.texts, devices, e.n);
    assert e.shardHashes[..e.n] == e.shardHashes;
    HeldPositionsRise(e.shardHashes, s.stores, e.n);
    PositionsSuffice(available, HeldPositions(e.shardHashes, s.stores, e.n), o.data, e.k, e.n);
    SameCount(available, HeldPositions(e.shardHashes, s.stores, e.n), o.data, e.k, e.n);
    if |available| >= e.k {
      AnyKShardsDecode(available, o.data, e.k, e.n);
    }
  }

  lemma SameCount(available: seq<Shard>, positions: seq<nat>, data: seq<Byte>, k: nat, n: nat)
    requires 1 <= k <= n && AtPositions(available, positions, data, k, n)
    ensures |available| == |positions|
  {
  }

  lemma {:induction false} PlacedIsHeld(e: FileEntry, o: Origin, stores: Stores, m: nat)
    requires Placed(e, o, stores) && m <= |e.shardHashes|
    ensures |HeldPositions(e.shardHashes, stores, m)| == m
  {
    if m != 0 {
      PlacedIsHeld(e, o, stores, m - 1);
    }
  }
}
