/** The virtual disk manager (src/vdisk.rs:85-564): every operation makes of its state exactly what DiskStates says, so
    what DiskRuns and DiskLosses prove of the states of a run holds of every
    manager. */
module VirtualDisk {
  import opened Bytes
  import opened Erasure
  import opened Chunks
  import opened Words
  import opened DiskStates
  import opened DiskFacts
  import opened DiskRuns
  import opened DiskLosses
  import Das

  class VDiskManager {
    const hs: Hashing
    var disks: map<string, DiskConfig>
    var attachments: seq<DeviceAttachment>
    var stores: Stores
    var registry: map<string, FileEntry>
    ghost var origin: map<string, Origin>
    ghost var texts: set<seq<Byte>>

    ghost function State(): DiskState
      reads this
    {
      DiskState(disks, attachments, stores, registry, origin, texts)
    }

    constructor (hs: Hashing)
      ensures this.hs == hs && State() == Empty()
    {
      this.hs := hs;
      disks, attachments, stores, registry, origin, texts := map[], [], map[], map[], map[], {};
    }

    method CreateDisk(config: DiskConfig) returns (r: Result<()>)
      modifies this`disks
      ensures (State(), r) == Created(old(State()), config)
    {
      if config.name in disks {
        return Failure("disk already exists");
      }
      disks := disks[config.name := config];
      return Success(());
    }

    method Attach(deviceName: string, diskName: string, capacity: Amount) returns (r: Result<()>)
      modifies this`attachments, this`stores
      ensures (State(), r) == Attached(old(State()), deviceName, diskName, capacity)
    {
      if diskName !in disks {
        return Failure("disk does not exist");
      }
      attachments := attachments + [DeviceAttachment(deviceName, diskName, capacity)];
      if deviceName !in stores {
        stores := stores[deviceName := EmptyStore(capacity)];
      }
      return Success(());
    }

    method DeviceNames(diskName: string) returns (devices: seq<string>)
      ensures devices == DevicesOn(attachments, diskName)
    {
      devices := [];
      var i := 0;
      assert attachments[..0] == [];
      while i < |attachments|
        invariant 0 <= i <= |attachments|
        invariant devices == DevicesOn(attachments[..i], diskName)
      {
        assert attachments[..i + 1][..i] == attachments[..i];
        if attachments[i].diskName == diskName {
          devices := devices + [attachments[i].deviceName];
        } else {
          assert devices + [] == devices;
        }
        i := i + 1;
      }
      assert attachments[..i] == attachments;
    }

    /** Deals shards to devices round-robin, as far as there is room. */
    method Distribute(shards: seq<Shard>, devices: seq<string>) returns (hashes: Option<seq<Digest>>)
      requires devices != []
      modifies this`stores
      ensures var d := Deal(hs.chunk, old(stores), shards, devices);
              stores == d.stores && hashes == if d.complete then Some(d.hashes) else None
    {
      hide DealOne, PutBytes, ElementBytes;
      ghost var before := stores;
      var found: seq<Digest> := [];
      var i := 0;
      assert shards[..0] == [];
      while i < |shards|
        invariant 0 <= i <= |shards|
        invariant Deal(hs.chunk, before, shards[..i], devices) == Dealt(stores, found, true)
      {
        assert shards[..i + 1][..i] == shards[..i];
        DealOneCases(hs.chunk, Dealt(stores, found, true), shards[i], devices);
        var deviceName := devices[shards[i].index % |devices|];
        if deviceName in stores {
          var bytes := ShardToBytes(shards[i]);
          var put := PutBytes(stores[deviceName], hs.chunk, bytes);
          if put.CapacityExceeded? {
            FullStops(hs.chunk, before, shards, devices, i + 1);
            return None;
          }
          stores := stores[deviceName := put.store];
          found := found + [put.hash];
        }
        i := i + 1;
      }
      assert shards[..i] == shards;
      return Some(found);
    }

    method RegistryInsert(entry: FileEntry, ghost o: Origin)
      modifies this`registry, this`origin
      ensures State() == Registered(old(State()), entry, o)
    {
      if entry.name !in registry || Supersedes(entry, registry[entry.name]) {
        registry := registry[entry.name := entry];
        origin := origin[entry.name := o];
      }
    }

    /** Encode, commit, deal the shards, register. */
    method StoreAndRegister(job: Job) returns (entry: Option<FileEntry>)
      requires job.Fits()
      modifies this`stores, this`registry, this`origin, this`texts
      ensures (State(), entry) == Kept(hs, old(State()), job)
    {
      hide Deal, EncodeShards, Das.Commit, TextsOf;
      var n := NextPowerOfTwo(|job.devices|);
      var shards := Encode(job.data, job.k, n);
      var commitment := Das.Commit(hs.root, shards, job.k, |job.data|);
      texts := texts + TextsOf(shards);
      var dealt := Distribute(shards, job.devices);
      if dealt.None? {
        return None;
      }
      var hashes := dealt.value;
      var e := FileEntry(job.name, |job.data|, job.k, n, hashes, job.timestamp,
                         hs.entry(job.name, hashes, job.timestamp, "vdisk"), "vdisk", commitment.root, job.shardCopies, false);
      RegistryInsert(e, job.AsOrigin());
      return Some(e);
    }

    method PutFile(diskName: string, fileName: string, data: seq<Byte>, now: nat) returns (r: Result<Digest>)
      modifies this`stores, this`registry, this`origin, this`texts
      ensures (State(), r) == Put(hs, old(State()), diskName, fileName, data, now)
    {
      hide Kept;
      if diskName !in disks {
        return Failure("disk not found");
      }
      var config := disks[diskName];
      var devices := DeviceNames(diskName);
      if devices == [] {
        return Failure("no devices attached to disk");
      }
      if !ToleranceFits(config.redundancy, |devices|) {
        return Panicked;
      }
      var k := RequiredShards(config.redundancy, |devices|);
      var entry := StoreAndRegister(Job(fileName, data, devices, diskName, k, now, 1));
      return if entry.Some? then Success(entry.value.dasRoot) else Failure("chunk store capacity exceeded");
    }

    /** The first device of the list whose store holds the chunk. */
    method FindHolder(devices: seq<string>, hash: Digest) returns (i: nat)
      ensures i == FirstHolder(stores, devices, hash, 0)
    {
      i := 0;
      while i < |devices| && !(devices[i] in stores && hash in stores[devices[i]].index)
        invariant 0 <= i <= |devices|
        invariant FirstHolder(stores, devices, hash, 0) == FirstHolder(stores, devices, hash, i)
      {
        i := i + 1;
      }
    }

    /** The shards of an entry that some store holds, in index order. */
    method CollectShards(hashes: seq<Digest>, devices: seq<string>) returns (available: seq<Shard>)
      ensures available == Collected(stores, devices, hashes)
    {
      hide BytesToShard;
      available := [];
      var i := 0;
      assert hashes[..0] == [];
      while i < |hashes|
        invariant 0 <= i <= |hashes|
        invariant available == Collected(stores, devices, hashes[..i])
      {
        assert hashes[..i + 1][..i] == hashes[..i] && hashes[..i + 1][i] == hashes[i];
        var holder := FindHolder(devices, hashes[i]);
        if holder < |devices| {
          var shard := BytesToShardLoop(i, stores[devices[holder]].index[hashes[i]]);
          available := available + [shard];
        } else {
          assert available + [] == available;
        }
        i := i + 1;
      }
      assert hashes[..i] == hashes;
    }

    /** Reads a file from whatever shards the stores hold. */
    method GetFile(fileName: string, order: Order) returns (r: Result<seq<Byte>>)
      ensures r == Read(State(), fileName, order)
    {
      hide DecodeShards, Collected;
      if fileName !in registry || registry[fileName].deleted {
        return Failure("file not found");
      }
      var e := registry[fileName];
      var available := CollectShards(e.shardHashes, order(stores.Keys));
      if |available| < e.k {
        return Failure("not enough shards available");
      }
      var decoded := Decode(available, e.k, e.n, e.originalLen);
      match decoded {
        case Ok(data) => return Success(data);
        case Err(_) => return Failure("decoding failed");
        case Panic => return Panicked;
      }
    }

    /** One round of rechunk: reads the file; if it reads, stores it anew, and otherwise skips it. */
    method RechunkFile(rw: Rewrite, fileName: string, now: nat, order: Order) returns (r: Result<bool>)
      requires rw.Fits()
      modifies this`stores, this`registry, this`origin, this`texts
      ensures (State(), r) == RewriteOne(hs, old(State()), rw, fileName, now, order)
    {
      hide Kept, DecodeShards, Collected;
      var read := GetFile(fileName, order);
      match read {
        case Failure(_) => return Success(false);
        case Panicked => return Panicked;
        case Success(data) =>
          if rw.k == 0 {
            return Panicked;
          }
          var entry := StoreAndRegister(rw.JobFor(fileName, data, registry[fileName].timestamp, now));
          return if entry.Some? then Success(true) else Failure("chunk store capacity exceeded");
      }
    }

    /** Collects the outdated files, then rewrites them one after the other. */
    method RechunkAll(rw: Rewrite, names: seq<string>, clock: nat -> nat, order: Order) returns (r: Result<(nat, nat)>)
      requires rw.Fits()
      modifies this`stores, this`registry, this`origin, this`texts
      ensures (State(), r) == RewriteAll(hs, old(State()), rw, OutdatedNames(old(State()), rw, names), clock, order)
    {
      hide RewriteOne;
      var outdated := OutdatedFiles(rw, names);
      var rechunked, skipped, i := 0, 0, 0;
      ghost var s := State();
      assert outdated[..0] == [];
      while i < |outdated|
        invariant 0 <= i <= |outdated|
        invariant RewriteAll(hs, s, rw, outdated[..i], clock, order) == (State(), Success((rechunked, skipped)))
        decreases |outdated| - i
      {
        assert outdated[..i + 1][..i] == outdated[..i];
        var one := RechunkFile(rw, outdated[i], clock(i), order);
        if !one.Success? {
          ErrorStops(hs, s, rw, outdated, clock, order, i + 1);
          return if one.Failure? then Failure(one.error) else Panicked;
        }
        if one.value {
          rechunked := rechunked + 1;
        } else {
          skipped := skipped + 1;
        }
        i := i + 1;
      }
      assert outdated[..i] == outdated;
      return Success((rechunked, skipped));
    }

    method OutdatedFiles(rw: Rewrite, names: seq<string>) returns (outdated: seq<string>)
      requires rw.Fits()
      ensures outdated == OutdatedNames(State(), rw, names)
    {
      outdated := [];
      var n := NextPowerOfTwo(|rw.devices|);
      var i := 0;
      assert names[..0] == [];
      while i < |names|
        invariant 0 <= i <= |names| && outdated == OutdatedNames(State(), rw, names[..i])
      {
        assert names[..i + 1][..i] == names[..i];
        if names[i] in registry && (registry[names[i]].k != rw.k || registry[names[i]].n != n) {
          outdated := outdated + [names[i]];
        } else {
          assert outdated + [] == outdated;
        }
        i := i + 1;
      }
      assert names[..i] == names;
    }

    method Rechunk(diskName: string, clock: nat -> nat, order: Order) returns (r: Result<(nat, nat)>)
      modifies this`stores, this`registry, this`origin, this`texts
      ensures (State(), r) == Rechunked(hs, old(State()), diskName, clock, order)
    {
      hide RewriteAll, OutdatedNames;
      if diskName !in disks {
        return Failure("disk not found");
      }
      var config := disks[diskName];
      var devices := DeviceNames(diskName);
      if |devices| < 2 {
        return Success((0, 0));
      }
      if config.redundancy.Tolerate? && config.redundancy.f > |devices| {
        return Panicked;
      }
      var k := if config.redundancy.Max? then 1 else |devices| - config.redundancy.f;
      r := RechunkAll(Rewrite(devices, diskName, k, config.shardCopies), order(registry.Keys), clock, order);
    }

    /** Copies one chunk from the first over-full device that holds it to the first under-full one that lacks it. */
    method CopyChunk(shardIdx: nat, hash: Digest, over: seq<string>, under: seq<string>) returns (migrated: bool)
      modifies this`stores
      ensures (stores, migrated) == CopiedOne(hs.chunk, old(stores), hash, over, under)
    {
      hide PutBytes, ElementBytes, BytesElements;
      var source := FindHolder(over, hash);
      if source == |over| {
        return false;
      }
      var i := 0;
      while i < |under|
        invariant 0 <= i <= |under| && stores == old(stores)
        invariant FirstLacking(stores, under, hash, 0) == FirstLacking(stores, under, hash, i)
      {
        if under[i] in stores && hash !in stores[under[i]].index {
          var bytes := stores[over[source]].index[hash];
          var shard := BytesToShardLoop(shardIdx, bytes);
          var again := ShardToBytes(shard);
          var put := PutBytes(stores[under[i]], hs.chunk, again);
          if put.CapacityExceeded? {
            return false;
          }
          stores := stores[under[i] := put.store];
          return true;
        }
        i := i + 1;
      }
      return false;
    }

    /** Copies the chunks of the live files. Which devices are over- and under-full is an input. */
    method Rebalance(over: seq<string>, under: seq<string>, order: Order) returns (migrated: nat)
      modifies this`stores
      ensures (State(), migrated) == Rebalanced(hs, old(State()), over, under, order)
    {
      hide CopiedOne;
      migrated := 0;
      var names := order(registry.Keys);
      ghost var s := State();
      ghost var done: seq<Digest> := [];
      var i := 0;
      assert names[..0] == [];
      while i < |names|
        invariant 0 <= i <= |names|
        invariant done == HashesOf(s, names[..i])
        invariant State() == s.(stores := stores) && CopiedAll(hs.chunk, s.stores, done, over, under) == (stores, migrated)
      {
        assert names[..i + 1][..i] == names[..i];
        if names[i] in registry && !registry[names[i]].deleted {
          var hashes := registry[names[i]].shardHashes;
          ghost var first := done;
          var j := 0;
          assert first + hashes[..0] == first;
          while j < |hashes|
            invariant 0 <= j <= |hashes| && done == first + hashes[..j]
            invariant State() == s.(stores := stores) && CopiedAll(hs.chunk, s.stores, done, over, under) == (stores, migrated)
          {
            assert (done + [hashes[j]])[..|done|] == done;
            assert first + hashes[..j + 1] == done + [hashes[j]];
            var moved := CopyChunk(j, hashes[j], over, under);
            if moved {
              migrated := migrated + 1;
            }
            done := done + [hashes[j]];
            j := j + 1;
          }
          assert hashes[..j] == hashes;
        } else {
          assert done + [] == done;
        }
        i := i + 1;
      }
      assert names[..i] == names;
    }

    /** The stores of the lost devices are gone. */
    method LoseDevices(lost: set<string>)
      modifies this`stores
      ensures State() == Lose(old(State()), lost)
    {
      stores := stores - lost;
    }
  }

  // ---------- runs ----------

  method Take(m: VDiskManager, op: Operation)
    modifies m
    ensures m.State() == Next(m.hs, old(m.State()), op)
  {
    hide Created, Attached, Put, Rechunked, Rebalanced;
    match op {
      case CreateDisk(config) => var _ := m.CreateDisk(config);
      case Attach(deviceName, diskName, capacity) => var _ := m.Attach(deviceName, diskName, capacity);
      case PutFile(disk, fileName, data, now) => var _ := m.PutFile(disk, fileName, data, now);
      case Rechunk(disk, clock, order) => var _ := m.Rechunk(disk, clock, order);
      case Rebalance(over, under, order) => var _ := m.Rebalance(over, under, order);
    }
  }

  /** Nothing that a result rests on is beyond the hash, the field or the order of a map. */
  ghost predicate Ordinary(hs: Hashing, ops: seq<Operation>, order: Order) {
    && CollisionFreeOn(hs.chunk, After(hs, ops).texts) && |After(hs, ops).attachments| <= MAX_DEVICES
    && OrdersList(ops) && Lists(order)
  }

  /** A manager that goes through a list of operations, loses devices, and reads a file before and after: the file reads as
      what was last written under its name, and still does if every disk has different devices and tolerates the loss. */
  method Run(hs: Hashing, ops: seq<Operation>, lost: set<string>, fileName: string, order: Order)
    returns (m: VDiskManager, before: Result<seq<Byte>>, after: Result<seq<Byte>>)
    ensures fresh(m) && m.hs == hs && m.State() == Lose(After(hs, ops), lost)
    ensures before == Read(After(hs, ops), fileName, order) && after == Read(m.State(), fileName, order)
    ensures Ordinary(hs, ops, order) ==>
      before == if LastWrite(hs, ops, fileName).Some? then Success(LastWrite(hs, ops, fileName).value) else Failure("file not found")
    ensures Ordinary(hs, ops, order) && DifferentDevices(ops) && AllTolerate(ops, |lost|) ==> after == before
  {
    hide Next, Read, LastWrite, DifferentDevices, AllTolerate;
    m := new VDiskManager(hs);
    var i := 0;
    assert ops[..0] == [];
    while i < |ops|
      invariant 0 <= i <= |ops| && fresh(m) && m.hs == hs
      invariant m.State() == After(hs, ops[..i])
    {
      assert ops[..i + 1][..i] == ops[..i];
      Take(m, ops[i]);
      i := i + 1;
    }
    assert ops[..i] == ops;
    before := m.GetFile(fileName, order);
    m.LoseDevices(lost);
    after := m.GetFile(fileName, order);
    if Ordinary(hs, ops, order) {
      RunsRead(hs, ops, fileName, order);
      if DifferentDevices(ops) && AllTolerate(ops, |lost|) {
        RunsSurvive(hs, ops, lost, fileName, order);
      }
    }
  }
}
