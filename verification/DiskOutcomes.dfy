/** What the operations of the virtual disk come to for a caller (src/vdisk.rs:200-438): in terms of the clock, the disks, the
    attachments, the registry and the stores before and after, and nothing in between. */
module DiskOutcomes {
  import opened Bytes
  import opened Erasure
  import opened Chunks
  import opened Words
  import opened DiskStates
  import opened DiskFacts
  import opened DiskRuns
  import opened DiskLosses
  import opened Sequences

  // ---------- sizes ----------

  /** k for m devices, and whether n is the least power of two that is not below m. */
  predicate SizesOf(redundancy: Redundancy, m: nat, k: nat, n: nat) {
    && (match redundancy
        case Max => k == 1
        case Tolerate(f) => k + f == m)
    && IsPowerOfTwo(n) && m <= n < 2 * m
  }

  lemma {:induction false} PowerBelow(n: nat, p: nat)
    requires IsPowerOfTwo(p) && (p < 2 * n || p == 1) && n > 0
    ensures p <= 2 * n && PowerFrom(n, p) < 2 * n
    decreases 2 * n - p
  {
    if p < n {
      Doubled(p);
      PowerBelow(n, 2 * p);
    }
  }

  lemma NextPowerIsLeast(m: nat)
    requires m > 0
    ensures IsPowerOfTwo(NextPowerOfTwo(m)) && m <= NextPowerOfTwo(m) < 2 * m
  {
    PowerBelow(m, 1);
  }

  // ---------- puts ----------

  /** Nothing is registered under the name, or something older. */
  predicate OlderThan(s: DiskState, name: string, now: nat) {
    name in s.registry ==> s.registry[name].timestamp < now
  }

  predicate SameEntry(s: DiskState, t: DiskState, name: string) {
    if name in s.registry then name in t.registry && t.registry[name] == s.registry[name] else name !in t.registry
  }

  /** A put that succeeds is stamped with the clock. It is registered if nothing as late was; what is registered later than
      the clock stays; at equal stamps the larger hash stays. A put that does not succeed registers nothing. */
  lemma PutOutcome(hs: Hashing, s: DiskState, disk: string, name: string, data: seq<Byte>, now: nat)
    ensures
      var (t, r) := Put(hs, s, disk, name, data, now);
      var devices := DevicesOn(s.attachments, disk);
      && (forall other :: other != name ==> SameEntry(s, t, other))
      && (!r.Success? ==> t.registry == s.registry)
      && (name in s.registry && s.registry[name].timestamp > now ==> t.registry == s.registry)
      && (r.Success? ==> disk in s.disks && devices != [] && name in t.registry)
      && (r.Success? && t.registry != s.registry ==>
            var e := t.registry[name];
            && e.timestamp == now && e.shardCopies == 1 && e.originalLen == |data| && e.name == name && !e.deleted
            && e.dasRoot == r.value && e.entryHash == hs.entry(name, e.shardHashes, now, "vdisk")
            && SizesOf(s.disks[disk].redundancy, |devices|, e.k, e.n)
            && t.origin == s.origin[name := Origin(data, devices, disk)]
            && (name in s.registry && s.registry[name].timestamp == now ==> e.entryHash > s.registry[name].entryHash))
      && (r.Success? && OlderThan(s, name, now) ==> t.registry != s.registry)
  {
    hide Kept, NextPowerOfTwo;
    var job := PutJob(s, disk, name, data, now);
    if job.Success? {
      KeptRegisters(hs, s, job.value);
      NextPowerIsLeast(|job.value.devices|);
    }
  }

  /** A put panics exactly if the disk has devices, but not more than the failures it is to tolerate; without the disk or
      its devices it fails. */
  lemma PutRefused(hs: Hashing, s: DiskState, disk: string, name: string, data: seq<Byte>, now: nat)
    ensures
      var r := Put(hs, s, disk, name, data, now).1;
      var devices := DevicesOn(s.attachments, disk);
      && (disk !in s.disks || devices == [] ==> r.Failure?)
      && (r.Panicked? <==> disk in s.disks && devices != [] && s.disks[disk].redundancy.Tolerate?
                           && s.disks[disk].redundancy.f >= |devices|)
  {
    hide Kept;
  }

  /** The bytes of the first shards of a list, all told. */
  function BytesOf(shards: seq<Shard>): nat {
    if shards == [] then 0 else BytesOf(shards[..|shards| - 1]) + 8 * |shards[|shards| - 1].data|
  }

  /** The devices have stores, and each has room for this many bytes more. */
  ghost predicate RoomFor(stores: Stores, devices: seq<string>, bytes: nat) {
    forall d :: d in devices ==>
      d in stores && (stores[d].capacity > 0 ==> stores[d].used + bytes <= stores[d].capacity)
  }

  lemma {:induction false} DealFits(h: Hash, stores: Stores, shards: seq<Shard>, devices: seq<string>, spare: nat)
    requires devices != [] && RoomFor(stores, devices, BytesOf(shards) + spare)
    ensures Deal(h, stores, shards, devices).complete && RoomFor(Deal(h, stores, shards, devices).stores, devices, spare)
  {
    hide ElementBytes;
    if shards != [] {
      var last := |shards| - 1;
      DealFits(h, stores, shards[..last], devices, spare + 8 * |shards[last].data|);
      var d := Deal(h, stores, shards[..last], devices);
      assert devices[shards[last].index % |devices|] in devices;
    }
  }

  /** A put succeeds if every device of its disk has room for all the shards. */
  lemma PutSucceeds(hs: Hashing, s: DiskState, disk: string, name: string, data: seq<Byte>, now: nat, k: nat, n: nat)
    requires disk in s.disks && DevicesOn(s.attachments, disk) != []
    requires ToleranceFits(s.disks[disk].redundancy, |DevicesOn(s.attachments, disk)|)
    requires k == RequiredShards(s.disks[disk].redundancy, |DevicesOn(s.attachments, disk)|)
    requires n == NextPowerOfTwo(|DevicesOn(s.attachments, disk)|)
    requires RoomFor(s.stores, DevicesOn(s.attachments, disk), BytesOf(EncodeShards(data, k, n)))
    ensures Put(hs, s, disk, name, data, now).1.Success?
  {
    JobOfPut(s, disk, name, data, now, k, n);
    var job := PutJob(s, disk, name, data, now).value;
    hide *;
    DealFits(hs.chunk, s.stores, EncodeShards(data, k, n), job.devices, 0);
    DealtIsKept(hs, s, job);
    KeptIsSuccess(hs, s, disk, name, data, now);
  }

  lemma JobOfPut(s: DiskState, disk: string, name: string, data: seq<Byte>, now: nat, k: nat, n: nat)
    requires disk in s.disks && DevicesOn(s.attachments, disk) != []
    requires ToleranceFits(s.disks[disk].redundancy, |DevicesOn(s.attachments, disk)|)
    requires k == RequiredShards(s.disks[disk].redundancy, |DevicesOn(s.attachments, disk)|)
    requires n == NextPowerOfTwo(|DevicesOn(s.attachments, disk)|)
    ensures
      var job := PutJob(s, disk, name, data, now);
      && job.Success? && job.value.devices == DevicesOn(s.attachments, disk) && job.value.data == data
      && job.value.k == k && job.value.N() == n
  {
    hide NextPowerOfTwo;
  }

  lemma DealtIsKept(hs: Hashing, s: DiskState, job: Job)
    requires job.Fits() && Deal(hs.chunk, s.stores, EncodeShards(job.data, job.k, job.N()), job.devices).complete
    ensures Kept(hs, s, job).1.Some?
  {
    hide EncodeShards, Deal, NextPowerOfTwo;
  }

  lemma KeptIsSuccess(hs: Hashing, s: DiskState, disk: string, name: string, data: seq<Byte>, now: nat)
    requires PutJob(s, disk, name, data, now).Success? && Kept(hs, s, PutJob(s, disk, name, data, now).value).1.Some?
    ensures Put(hs, s, disk, name, data, now).1.Success?
  {
    hide Kept;
  }

  // ---------- puts over runs ----------

  lemma OlderPutWins(hs: Hashing, s: DiskState, op: Operation)
    requires op.PutFile? && Put(hs, s, op.disk, op.fileName, op.data, op.now).1.Success? && OlderThan(s, op.fileName, op.now)
    ensures WinsUnder(hs, s, op, op.fileName)
  {
    PutOutcome(hs, s, op.disk, op.fileName, op.data, op.now);
    PutWrites(hs, s, op.disk, op.fileName, op.data, op.now);
    hide Put, PutWins;
  }

  lemma NewerStays(hs: Hashing, s: DiskState, op: Operation)
    requires op.PutFile? && op.fileName in s.registry && s.registry[op.fileName].timestamp > op.now
    ensures !WinsUnder(hs, s, op, op.fileName)
  {
    var job := PutJob(s, op.disk, op.fileName, op.data, op.now);
    if job.Success? && Laid(hs, s, job.value).1.Some? {
      LaidNames(hs, s, job.value);
      LaidStamp(hs, s, job.value);
    }
    hide Laid;
  }

  lemma LaidStamp(hs: Hashing, s: DiskState, job: Job)
    requires job.Fits() && Laid(hs, s, job).1.Some?
    ensures Laid(hs, s, job).1.value.timestamp == job.timestamp && Laid(hs, s, job).1.value.name == job.name
  {
    hide Deal, EncodeShards, TextsOf;
  }

  lemma {:induction false} WriteStays(hs: Hashing, ops: seq<Operation>, i: nat, name: string)
    requires i < |ops| && WinsUnder(hs, After(hs, ops[..i]), ops[i], name)
    requires forall j :: i < j < |ops| && ops[j].PutFile? ==> ops[j].fileName != name
    ensures LastWrite(hs, ops, name) == Some(ops[i].data)
    decreases |ops|
  {
    hide WinsUnder;
    var last := |ops| - 1;
    if i == last {
    } else {
      assert ops[..last][..i] == ops[..i];
      WriteStays(hs, ops[..last], i, name);
      NoPutNoWin(hs, After(hs, ops[..last]), ops[last], name);
    }
  }

  lemma NoPutNoWin(hs: Hashing, s: DiskState, op: Operation, name: string)
    requires op.PutFile? ==> op.fileName != name
    ensures !WinsUnder(hs, s, op, name)
  {
  }

  /** After a put that succeeds at a clock later than what was registered, the name reads as its data: at once and after any
      further operations but puts under that name. */
  lemma LaterPutReads(hs: Hashing, ops: seq<Operation>, i: nat, order: Order)
    requires i < |ops| && ops[i].PutFile?
    requires Put(hs, After(hs, ops[..i]), ops[i].disk, ops[i].fileName, ops[i].data, ops[i].now).1.Success?
    requires OlderThan(After(hs, ops[..i]), ops[i].fileName, ops[i].now)
    requires forall j :: i < j < |ops| && ops[j].PutFile? ==> ops[j].fileName != ops[i].fileName
    requires |After(hs, ops).attachments| <= MAX_DEVICES && CollisionFreeOn(hs.chunk, After(hs, ops).texts)
    requires OrdersList(ops) && Lists(order)
    ensures Read(After(hs, ops), ops[i].fileName, order) == Success(ops[i].data)
  {
    hide Put, Read, After, LastWrite, CollisionFreeOn, Lists, OrdersList;
    OlderPutWins(hs, After(hs, ops[..i]), ops[i]);
    WriteStays(hs, ops, i, ops[i].fileName);
    RunsRead(hs, ops, ops[i].fileName, order);
  }

  /** A put at a clock earlier than what is registered does not change what the name reads as. */
  lemma EarlierPutIsIgnored(hs: Hashing, ops: seq<Operation>, op: Operation, order: Order)
    requires op.PutFile? && op.fileName in After(hs, ops).registry && After(hs, ops).registry[op.fileName].timestamp > op.now
    requires |After(hs, ops + [op]).attachments| <= MAX_DEVICES && CollisionFreeOn(hs.chunk, After(hs, ops + [op]).texts)
    requires OrdersList(ops + [op]) && Lists(order)
    ensures Read(After(hs, ops + [op]), op.fileName, order) == Read(After(hs, ops), op.fileName, order)
  {
    assert (ops + [op])[..|ops|] == ops;
    assert OrdersList(ops) by {
      assert forall i :: 0 <= i < |ops| ==> ops[i] == (ops + [op])[i];
    }
    PrefixExtends(hs, ops + [op]);
    FewerTexts(hs.chunk, After(hs, ops), After(hs, ops + [op]));
    NewerStays(hs, After(hs, ops), op);
    hide After, Read, CollisionFreeOn, Lists, OrdersList, WinsUnder;
    RunsRead(hs, ops, op.fileName, order);
    RunsRead(hs, ops + [op], op.fileName, order);
  }

  // ---------- rechunks ----------

  /** What became of a live file when the rechunk of a disk went through: it has the sizes of the disk's redundancy and
      devices. If it had them before, it is as it was; otherwise it is on those devices, with the disk's number of copies
      and a later stamp. */
  ghost predicate Refitted(s: DiskState, t: DiskState, disk: string, name: string)
    requires name in s.registry && name in s.origin && name in t.registry && name in t.origin && disk in s.disks
  {
    var devices, e := DevicesOn(s.attachments, disk), t.registry[name];
    && SizesOf(s.disks[disk].redundancy, |devices|, e.k, e.n)
    && if SizesOf(s.disks[disk].redundancy, |devices|, s.registry[name].k, s.registry[name].n) then Untouched(s, t, name)
       else t.origin[name] == Origin(s.origin[name].data, devices, disk)
            && e.shardCopies == s.disks[disk].shardCopies && e.timestamp > s.registry[name].timestamp
  }

  lemma {:induction false} OnePowerBetween(m: nat, p: nat, q: nat)
    requires IsPowerOfTwo(p) && IsPowerOfTwo(q) && m <= p < 2 * m && m <= q < 2 * m
    ensures p == q
  {
    if p < q {
      PowersAreSpaced(p, q);
    } else if q < p {
      PowersAreSpaced(q, p);
    }
  }

  /** A rechunk fails without the disk, does nothing with fewer than two devices, and panics if more failures are to be
      tolerated than there are devices. Otherwise, if it goes through, every live file comes out with the disk's sizes. */
  lemma RechunkOutcome(hs: Hashing, s: DiskState, disk: string, clock: nat -> nat, order: Order)
    requires WellFormed(hs, s) && |s.attachments| <= MAX_DEVICES && Lists(order)
    requires CollisionFreeOn(hs.chunk, Rechunked(hs, s, disk, clock, order).0.texts)
    ensures
      var (t, r) := Rechunked(hs, s, disk, clock, order);
      var m := |DevicesOn(s.attachments, disk)|;
      && s.registry.Keys == s.origin.Keys == t.registry.Keys == t.origin.Keys
      && (disk !in s.disks ==> r.Failure? && t == s)
      && (disk in s.disks && m < 2 ==> r == Success((0, 0)) && t == s)
      && (disk in s.disks && m >= 2 && s.disks[disk].redundancy.Tolerate? && s.disks[disk].redundancy.f > m ==> r.Panicked? && t == s)
      && (r.Success? && m >= 2 ==>
            forall n :: Live(s, n) && s.registry[n].timestamp < U64_MAX ==> Live(t, n) && Refitted(s, t, disk, n))
  {
    RechunkMoves(hs, s, disk, clock, order);
    var (t, r) := Rechunked(hs, s, disk, clock, order);
    var m := |DevicesOn(s.attachments, disk)|;
    RefitsExactly(s, disk);
    hide WellFormed, Lists, CollisionFreeOn, NextPowerOfTwo, RewriteAll, OutdatedNames;
    if r.Success? && m >= 2 {
      var rw := RewriteFor(s, disk).value.value;
      forall n | Live(s, n) && s.registry[n].timestamp < U64_MAX
        ensures Live(t, n) && Refitted(s, t, disk, n)
      {
        assert FileRewritten(s, t, rw, n, rw.Outdated(s.registry[n]), true);
      }
    }
  }

  /** Entries are outdated exactly if they do not have the disk's sizes. */
  lemma RefitsExactly(s: DiskState, disk: string)
    ensures RewriteFor(s, disk).Success? && RewriteFor(s, disk).value.Some? ==>
      disk in s.disks && forall e: FileEntry ::
        RewriteFor(s, disk).value.value.Outdated(e) <==> !SizesOf(s.disks[disk].redundancy, |DevicesOn(s.attachments, disk)|, e.k, e.n)
  {
    if RewriteFor(s, disk).Success? && RewriteFor(s, disk).value.Some? {
      var m := |DevicesOn(s.attachments, disk)|;
      NextPowerIsLeast(m);
      forall e: FileEntry | SizesOf(s.disks[disk].redundancy, m, e.k, e.n)
        ensures !RewriteFor(s, disk).value.value.Outdated(e)
      {
        OnePowerBetween(m, e.n, NextPowerOfTwo(m));
      }
    }
  }

  /** A file that is rewritten is stamped with the clock, or one later than before if that is later still. */
  lemma RewriteStamp(hs: Hashing, s: DiskState, rw: Rewrite, name: string, now: nat, order: Order)
    requires rw.Fits() && name in s.registry && s.registry[name].timestamp < U64_MAX
    ensures
      var (t, r) := RewriteOne(hs, s, rw, name, now, order);
      if r == Success(true)
      then name in t.registry && t.registry[name].shardCopies == rw.shardCopies
           && t.registry[name].timestamp == if now > s.registry[name].timestamp then now else s.registry[name].timestamp + 1
      else t.registry == s.registry
  {
    hide Kept, Read;
    var read := Read(s, name, order);
    if read.Success? && rw.k > 0 {
      KeptRegisters(hs, s, rw.JobFor(name, read.value, s.registry[name].timestamp, now));
    }
  }

  /** A rechunk that goes through counts every file whose sizes differ once: the live ones as rechunked, the others as
      skipped. */
  lemma {:induction false} RewriteCountsLive(hs: Hashing, s: DiskState, rw: Rewrite, names: seq<string>, clock: nat -> nat, order: Order)
    requires WellFormed(hs, s) && RewriteOk(s, rw) && |s.attachments| <= MAX_DEVICES && Lists(order)
    requires NoDup(names) && forall n :: n in names ==> n in s.registry
    requires CollisionFreeOn(hs.chunk, RewriteAll(hs, s, rw, names, clock, order).0.texts)
    requires forall n :: n in names ==> Live(s, n)
    ensures
      var r := RewriteAll(hs, s, rw, names, clock, order).1;
      r.Success? ==> r.value == (|names|, 0)
  {
    assert rw.Fits();
    if names != [] {
      var last := |names| - 1;
      var before := names[..last];
      AllButLast(names, s.registry.Keys);
      CountSplit(hs, s, rw, names, clock, order);
      hide WellFormed, RewriteOne, RewriteOk, Lists, RewrittenTo, Extends, CollisionFreeOn, NoDup, Live, RewriteAll;
      RewriteAllKeeps(hs, s, rw, before, clock, order);
      var mid := RewriteAll(hs, s, rw, before, clock, order);
      if mid.1.Success? {
        RewriteOneKeeps(hs, mid.0, rw, names[last], clock(last), order);
        FewerTexts(hs.chunk, mid.0, RewriteOne(hs, mid.0, rw, names[last], clock(last), order).0);
        RewriteCountsLive(hs, s, rw, before, clock, order);
        RewriteAllMoves(hs, s, rw, before, clock, order);
        StillLive(s, mid.0, rw, before, names[last]);
        LiveIsRewritten(hs, mid.0, rw, names[last], clock(last), order);
      }
    }
  }

  lemma CountSplit(hs: Hashing, s: DiskState, rw: Rewrite, names: seq<string>, clock: nat -> nat, order: Order)
    requires rw.Fits() && names != []
    ensures
      var mid, t := RewriteAll(hs, s, rw, names[..|names| - 1], clock, order), RewriteAll(hs, s, rw, names, clock, order);
      if !mid.1.Success? then t == mid
      else
        var one := RewriteOne(hs, mid.0, rw, names[|names| - 1], clock(|names| - 1), order);
        t.0 == one.0 && (t.1.Success? ==> one.1.Success?)
        && (one.1 == Success(true) ==> t.1 == Success((mid.1.value.0 + 1, mid.1.value.1)))
  {
    hide RewriteOne;
  }

  lemma LiveIsRewritten(hs: Hashing, s: DiskState, rw: Rewrite, name: string, now: nat, order: Order)
    requires WellFormed(hs, s) && RewriteOk(s, rw) && Live(s, name) && |s.attachments| <= MAX_DEVICES
    requires CollisionFreeOn(hs.chunk, s.texts) && Lists(order)
    ensures RewriteOne(hs, s, rw, name, now, order).1.Success? ==> RewriteOne(hs, s, rw, name, now, order).1 == Success(true)
  {
    RewriteOneMoves(hs, s, rw, name, now, order);
    hide RewriteOne, WellFormed, RewriteOk, FileRewritten;
  }

  lemma StillLive(s: DiskState, mid: DiskState, rw: Rewrite, before: seq<string>, name: string)
    requires RewrittenTo(s, mid, rw, before, true) && Live(s, name) && name !in before
    ensures name in mid.registry && Live(mid, name)
  {
    assert FileRewritten(s, mid, rw, name, false, true);
  }
}
