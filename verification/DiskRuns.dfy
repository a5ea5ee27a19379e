/** What every run of the virtual disk comes to (src/vdisk.rs:102-564): which data a file has and which devices its
    shards are on. */
module DiskRuns {
  import opened Bytes
  import opened Erasure
  import opened Chunks
  import opened Words
  import opened DiskStates
  import opened DiskFacts
  import Sequences

  lemma DealOneCases(h: Hash, d: Dealt, shard: Shard, devices: seq<string>)
    requires devices != []
    ensures
      var device := devices[shard.index % |devices|];
      DealOne(h, d, shard, devices) ==
        if !d.complete || device !in d.stores then d
        else
          var put := PutBytes(d.stores[device], h, ElementBytes(shard.data));
          if put.CapacityExceeded? then d.(complete := false)
          else Dealt(d.stores[device := put.store], d.hashes + [put.hash], true)
  {
    hide PutBytes, ElementBytes;
  }

  /** Once a device is full nothing more is dealt. */
  lemma {:induction false} FullStops(h: Hash, stores: Stores, shards: seq<Shard>, devices: seq<string>, i: nat)
    requires devices != [] && i <= |shards| && !Deal(h, stores, shards[..i], devices).complete
    ensures Deal(h, stores, shards, devices) == Deal(h, stores, shards[..i], devices)
    decreases |shards|
  {
    hide PutBytes, ElementBytes;
    if i < |shards| {
      var before := shards[..|shards| - 1];
      assert before[..i] == shards[..i];
      FullStops(h, stores, before, devices, i);
    } else {
      assert shards[..i] == shards;
    }
  }

  /** After an error no further file is rewritten. */
  lemma {:induction false} ErrorStops(hs: Hashing, s: DiskState, rw: Rewrite, names: seq<string>, clock: nat -> nat, order: Order, i: nat)
    requires rw.Fits() && i <= |names| && !RewriteAll(hs, s, rw, names[..i], clock, order).1.Success?
    ensures RewriteAll(hs, s, rw, names, clock, order) == RewriteAll(hs, s, rw, names[..i], clock, order)
    decreases |names|
  {
    hide RewriteOne;
    if i < |names| {
      var before := names[..|names| - 1];
      assert before[..i] == names[..i];
      ErrorStops(hs, s, rw, before, clock, order, i);
    } else {
      assert names[..i] == names;
    }
  }

  // ---------- sizes ----------

  lemma {:induction false} NextPowerWithin(n: nat, p: nat, limit: nat)
    requires IsPowerOfTwo(p) && p <= 2 * n && n <= limit && IsPowerOfTwo(limit) && p <= limit
    ensures PowerFrom(n, p) <= limit
    decreases 2 * n - p
  {
    if p < n {
      PowersAreSpaced(p, limit);
      NextPowerWithin(n, 2 * p, limit);
    }
  }

  lemma {:induction false} PowersAreSpaced(p: nat, q: nat)
    requires IsPowerOfTwo(p) && IsPowerOfTwo(q) && p < q
    ensures 2 * p <= q
  {
    if p > 1 {
      PowersAreSpaced(p / 2, q / 2);
    }
  }

  lemma LimitIsPowerOfTwo()
    ensures IsPowerOfTwo(MAX_DEVICES)
  {
    assert IsPowerOfTwo(1);
    hide IsPowerOfTwo;
    SixteenTimes(1);
    SixteenTimes(0x10);
    SixteenTimes(0x100);
    SixteenTimes(0x1000);
    SixteenTimes(0x1_0000);
    SixteenTimes(0x10_0000);
    SixteenTimes(0x100_0000);
    SixteenTimes(0x1000_0000);
  }

  lemma SixteenTimes(p: nat)
    requires IsPowerOfTwo(p)
    ensures IsPowerOfTwo(16 * p)
  {
    Doubled(p);
    Doubled(2 * p);
    Doubled(4 * p);
    Doubled(8 * p);
  }

  lemma Doubled(p: nat)
    requires IsPowerOfTwo(p)
    ensures IsPowerOfTwo(2 * p)
  {
    assert 2 * p / 2 == p;
  }

  lemma SizesFit(hs: Hashing, s: DiskState, name: string)
    requires WellFormed(hs, s) && name in s.registry && |s.attachments| <= MAX_DEVICES
    ensures s.registry[name].n <= MAX_DEVICES
  {
    hide Filed, Connected, Describes, Placed, PowerFrom;
    var o := s.origin[name];
    assert Sized(s, s.registry[name], o);
    LimitIsPowerOfTwo();
    assert |o.devices| <= |DevicesOn(s.attachments, o.disk)|;
    NextPowerWithin(|o.devices|, 1, MAX_DEVICES);
  }

  // ---------- one operation ----------

  ghost predicate Untouched(s: DiskState, t: DiskState, name: string)
    requires name in s.registry && name in s.origin
  {
    name in t.registry && name in t.origin && t.registry[name] == s.registry[name] && t.origin[name] == s.origin[name]
  }

  /** The same data, now on the devices of the rechunked disk and with its sizes. */
  ghost predicate Moved(s: DiskState, t: DiskState, rw: Rewrite, name: string)
    requires name in s.registry && name in s.origin
  {
    && rw.Fits() && name in t.registry && name in t.origin
    && t.origin[name] == Origin(s.origin[name].data, rw.devices, rw.disk)
    && t.registry[name].k == rw.k && t.registry[name].n == rw.N() && !t.registry[name].deleted
    && t.registry[name].shardCopies == rw.shardCopies
    && (s.registry[name].timestamp < U64_MAX ==> t.registry[name].timestamp > s.registry[name].timestamp)
  }

  /** Every file of a well-formed state reads as its data. */
  lemma AllRead(hs: Hashing, s: DiskState, name: string, order: Order)
    requires WellFormed(hs, s) && Live(s, name) && |s.attachments| <= MAX_DEVICES
    requires CollisionFreeOn(hs.chunk, s.texts) && Lists(order)
    ensures Read(s, name, order) == Success(s.origin[name].data)
  {
    hide Filed, Connected, Sized, HeldPositions, Lists, Read;
    assert FileOk(hs, s, name);
    SizesFit(hs, s, name);
    PlacedIsHeld(s.registry[name], s.origin[name], s.stores, s.registry[name].n);
    ReadsIff(hs, s, name, order);
  }

  /** What storing and registering does to the registry. */
  lemma KeptRegisters(hs: Hashing, s: DiskState, job: Job)
    requires job.Fits()
    ensures
      var (t, entry) := Kept(hs, s, job);
      if entry.Some? && Wins(s, entry.value)
      then t.registry == s.registry[job.name := entry.value] && t.origin == s.origin[job.name := job.AsOrigin()]
      else t.registry == s.registry && t.origin == s.origin
    ensures Kept(hs, s, job).1.Some? ==>
      var e := Kept(hs, s, job).1.value;
      e.name == job.name && e.k == job.k && e.n == job.N() && e.timestamp == job.timestamp && !e.deleted
      && e.shardCopies == job.shardCopies && e.originalLen == |job.data| && e.deviceId == "vdisk"
      && e.entryHash == hs.entry(job.name, e.shardHashes, job.timestamp, "vdisk")
  {
    hide Deal, EncodeShards, TextsOf, Das.Commit, Supersedes;
  }

  /** One file of a rechunk is moved, unless it is not live, or an error stops the rechunk, or its timestamp is already
      the largest. */
  lemma RewriteOneMoves(hs: Hashing, s: DiskState, rw: Rewrite, name: string, now: nat, order: Order)
    requires WellFormed(hs, s) && RewriteOk(s, rw) && name in s.registry && |s.attachments| <= MAX_DEVICES
    requires CollisionFreeOn(hs.chunk, s.texts) && Lists(order)
    ensures
      var (t, r) := RewriteOne(hs, s, rw, name, now, order);
      && name in t.registry && t.registry == s.registry[name := t.registry[name]]
      && name in t.origin && t.origin == s.origin[name := t.origin[name]]
      && FileRewritten(s, t, rw, name, true, r.Success?)
      && (r.Success? ==> (r.value <==> Live(s, name)))
  {
    hide Filed, Connected, FileOk, Kept, Read, Lists, CollisionFreeOn;
    assert s.registry[name := s.registry[name]] == s.registry && s.origin[name := s.origin[name]] == s.origin;
    if Live(s, name) {
      AllRead(hs, s, name, order);
      if rw.k > 0 {
        KeptRegisters(hs, s, rw.JobFor(name, s.origin[name].data, s.registry[name].timestamp, now));
      }
    } else {
      assert Read(s, name, order).Failure? by { NotLive(s, name, order); }
    }
  }

  lemma NotLive(s: DiskState, name: string, order: Order)
    requires !Live(s, name)
    ensures Read(s, name, order) == Failure("file not found")
  {
    hide Collected, DecodeShards;
  }

  /** What became of one file: `due` whether it was to be moved, `done` whether no error stopped that. */
  ghost predicate FileRewritten(s: DiskState, t: DiskState, rw: Rewrite, n: string, due: bool, done: bool)
    requires n in s.registry && n in s.origin && n in t.registry && n in t.origin
  {
    && (Untouched(s, t, n) || Moved(s, t, rw, n)) && t.registry[n].deleted == s.registry[n].deleted
    && (!due || s.registry[n].deleted ==> Untouched(s, t, n))
    && (due && done && !s.registry[n].deleted && s.registry[n].timestamp < U64_MAX ==> Moved(s, t, rw, n))
  }

  ghost predicate RewrittenTo(s: DiskState, t: DiskState, rw: Rewrite, names: seq<string>, done: bool) {
    && s.registry.Keys == s.origin.Keys == t.registry.Keys == t.origin.Keys
    && forall n :: n in s.registry ==> FileRewritten(s, t, rw, n, n in names, done)
  }

  lemma RewrittenMore(s: DiskState, mid: DiskState, t: DiskState, rw: Rewrite, names: seq<string>, name: string, done: bool)
    requires RewrittenTo(s, mid, rw, names, true) && name in s.registry && name !in names
    requires name in t.registry && t.registry == mid.registry[name := t.registry[name]]
    requires name in t.origin && t.origin == mid.origin[name := t.origin[name]]
    requires FileRewritten(mid, t, rw, name, true, done)
    ensures RewrittenTo(s, t, rw, names + [name], done)
  {
    forall n | n in s.registry
      ensures FileRewritten(s, t, rw, n, n in names + [name], done)
    {
      assert FileRewritten(s, mid, rw, n, n in names, true);
      if n != name {
        assert Untouched(mid, t, n);
      }
    }
  }

  lemma {:induction false} RewriteAllMoves(hs: Hashing, s: DiskState, rw: Rewrite, names: seq<string>, clock: nat -> nat, order: Order)
    requires rw.Fits() && WellFormed(hs, s) && RewriteOk(s, rw) && |s.attachments| <= MAX_DEVICES && Lists(order)
    requires Sequences.NoDup(names) && forall n :: n in names ==> n in s.registry
    requires CollisionFreeOn(hs.chunk, RewriteAll(hs, s, rw, names, clock, order).0.texts)
    ensures
      var (t, r) := RewriteAll(hs, s, rw, names, clock, order);
      RewrittenTo(s, t, rw, names, r.Success?)
  {
    hide *;
    if names == [] {
      NoneRewritten(hs, s, rw, clock, order);
    } else {
      var last, before := |names| - 1, names[..|names| - 1];
      AllButLast(names, s.registry.Keys);
      RewriteSplit(hs, s, rw, names, clock, order);
      RewriteAllKeeps(hs, s, rw, before, clock, order);
      var mid := RewriteAll(hs, s, rw, before, clock, order);
      if mid.1.Success? {
        RewriteOneKeeps(hs, mid.0, rw, names[last], clock(last), order);
        FewerTexts(hs.chunk, mid.0, RewriteOne(hs, mid.0, rw, names[last], clock(last), order).0);
        RewriteAllMoves(hs, s, rw, before, clock, order);
        RewriteLast(hs, s, mid.0, rw, names, clock, order);
      } else {
        RewriteAllMoves(hs, s, rw, before, clock, order);
        Stopped(s, mid.0, rw, before, names);
      }
    }
  }

  lemma NoneRewritten(hs: Hashing, s: DiskState, rw: Rewrite, clock: nat -> nat, order: Order)
    requires WellFormed(hs, s) && rw.Fits()
    ensures RewriteAll(hs, s, rw, [], clock, order) == (s, Success((0, 0)))
    ensures RewrittenTo(s, s, rw, [], true)
  {
    hide FileRewritten, RewriteOne;
    Unmoved(s, rw);
  }

  /** Every file is counted once, as rewritten or as skipped. */
  lemma {:induction false} RewriteCounts(hs: Hashing, s: DiskState, rw: Rewrite, names: seq<string>, clock: nat -> nat, order: Order)
    requires rw.Fits()
    ensures
      var r := RewriteAll(hs, s, rw, names, clock, order).1;
      r.Success? ==> r.value.0 + r.value.1 == |names|
  {
    hide RewriteOne;
    if names != [] {
      RewriteCounts(hs, s, rw, names[..|names| - 1], clock, order);
    }
  }

  lemma RewriteSplit(hs: Hashing, s: DiskState, rw: Rewrite, names: seq<string>, clock: nat -> nat, order: Order)
    requires rw.Fits() && names != []
    ensures
      var mid, t := RewriteAll(hs, s, rw, names[..|names| - 1], clock, order), RewriteAll(hs, s, rw, names, clock, order);
      if !mid.1.Success? then t == mid
      else
        var one := RewriteOne(hs, mid.0, rw, names[|names| - 1], clock(|names| - 1), order);
        t.0 == one.0 && (t.1.Success? <==> one.1.Success?)
  {
    hide RewriteOne;
  }

  lemma AllButLast(names: seq<string>, keys: set<string>)
    requires names != [] && Sequences.NoDup(names) && forall n :: n in names ==> n in keys
    ensures Sequences.NoDup(names[..|names| - 1]) && (forall n :: n in names[..|names| - 1] ==> n in keys)
    ensures names[|names| - 1] in keys && names[|names| - 1] !in names[..|names| - 1]
    ensures names[..|names| - 1] + [names[|names| - 1]] == names
  {
  }

  lemma RewriteLast(hs: Hashing, s: DiskState, mid: DiskState, rw: Rewrite, names: seq<string>, clock: nat -> nat, order: Order)
    requires WellFormed(hs, mid) && RewriteOk(mid, rw) && |mid.attachments| <= MAX_DEVICES && Lists(order)
    requires Sequences.NoDup(names) && names != [] && forall n :: n in names ==> n in s.registry
    requires RewrittenTo(s, mid, rw, names[..|names| - 1], true)
    requires CollisionFreeOn(hs.chunk, RewriteOne(hs, mid, rw, names[|names| - 1], clock(|names| - 1), order).0.texts)
    ensures
      var (t, r) := RewriteOne(hs, mid, rw, names[|names| - 1], clock(|names| - 1), order);
      RewrittenTo(s, t, rw, names, r.Success?)
  {
    assert rw.Fits();
    hide WellFormed, RewriteOne, RewriteOk, Lists, FileRewritten, Extends, CollisionFreeOn;
    var last, name := |names| - 1, names[|names| - 1];
    AllButLast(names, s.registry.Keys);
    RewriteOneKeeps(hs, mid, rw, name, clock(last), order);
    var one := RewriteOne(hs, mid, rw, name, clock(last), order);
    FewerTexts(hs.chunk, mid, one.0);
    RewriteOneMoves(hs, mid, rw, name, clock(last), order);
    RewrittenMore(s, mid, one.0, rw, names[..last], name, one.1.Success?);
  }

  lemma FewerTexts(h: Hash, s: DiskState, t: DiskState)
    requires Extends(s, t) && CollisionFreeOn(h, t.texts)
    ensures CollisionFreeOn(h, s.texts)
  {
  }

  lemma Unmoved(s: DiskState, rw: Rewrite)
    requires s.registry.Keys == s.origin.Keys
    ensures RewrittenTo(s, s, rw, [], true)
  {
  }

  lemma Stopped(s: DiskState, t: DiskState, rw: Rewrite, before: seq<string>, names: seq<string>)
    requires RewrittenTo(s, t, rw, before, false) && before <= names
    ensures RewrittenTo(s, t, rw, names, false)
  {
    hide Moved;
    assert forall n :: n in before ==> n in names;
  }

  lemma {:induction false} OutdatedIff(s: DiskState, rw: Rewrite, names: seq<string>)
    requires rw.Fits() && Sequences.NoDup(names)
    ensures Sequences.NoDup(OutdatedNames(s, rw, names))
    ensures forall n :: n in OutdatedNames(s, rw, names) <==> n in names && n in s.registry && rw.Outdated(s.registry[n])
  {
    if names != [] {
      var last := |names| - 1;
      OutdatedIff(s, rw, names[..last]);
      assert forall n :: n in names <==> n in names[..last] || n == names[last];
      assert names[last] !in names[..last];
    }
  }

  lemma ListedNames(order: Order, keys: set<string>)
    requires Lists(order)
    ensures Sequences.NoDup(order(keys)) && forall n :: n in order(keys) <==> n in keys
  {
    assert forall n :: n in order(keys) <==> n in Sequences.Elements(order(keys));
  }

  /** A rechunk changes no data. Every outdated live file is on the disk's devices afterwards, with its sizes, whichever
      disk it was put on, unless an error stops the rechunk or its timestamp is already the largest; every other file stays
      as it is. */
  lemma RechunkMoves(hs: Hashing, s: DiskState, disk: string, clock: nat -> nat, order: Order)
    requires WellFormed(hs, s) && |s.attachments| <= MAX_DEVICES && Lists(order)
    requires CollisionFreeOn(hs.chunk, Rechunked(hs, s, disk, clock, order).0.texts)
    ensures
      var (t, r) := Rechunked(hs, s, disk, clock, order);
      var rw := RewriteFor(s, disk);
      && s.registry.Keys == s.origin.Keys == t.registry.Keys == t.origin.Keys
      && if rw.Success? && rw.value.Some?
         then forall n :: n in s.registry ==> FileRewritten(s, t, rw.value.value, n, rw.value.value.Outdated(s.registry[n]), r.Success?)
         else t == s
  {
    assert s.registry.Keys == s.origin.Keys;
    hide WellFormed, RewriteFor, RewriteAll, OutdatedNames, Lists, FileRewritten;
    RewriteForOk(s, disk);
    var rw := RewriteFor(s, disk);
    if rw.Success? && rw.value.Some? {
      ListedNames(order, s.registry.Keys);
      OutdatedIff(s, rw.value.value, order(s.registry.Keys));
      RewriteAllMoves(hs, s, rw.value.value, OutdatedNames(s, rw.value.value, order(s.registry.Keys)), clock, order);
    }
  }

  /** The entry a put makes, if it succeeds and supersedes what is registered under the name. */
  ghost predicate PutWins(hs: Hashing, s: DiskState, disk: string, fileName: string, data: seq<Byte>, now: nat) {
    var job := PutJob(s, disk, fileName, data, now);
    job.Success? && Laid(hs, s, job.value).1.Some? && Wins(s, Laid(hs, s, job.value).1.value)
  }

  /** A put that wins is live with its data, on all devices of its disk; any other put changes no file. */
  lemma PutWrites(hs: Hashing, s: DiskState, disk: string, fileName: string, data: seq<Byte>, now: nat)
    ensures
      var (t, r) := Put(hs, s, disk, fileName, data, now);
      if PutWins(hs, s, disk, fileName, data, now)
      then r.Success? && Live(t, fileName) && t.registry == s.registry[fileName := t.registry[fileName]]
           && t.origin == s.origin[fileName := Origin(data, DevicesOn(s.attachments, disk), disk)]
      else t.registry == s.registry && t.origin == s.origin
  {
    hide Laid, Supersedes;
    var job := PutJob(s, disk, fileName, data, now);
    if job.Success? {
      KeptRegisters(hs, s, job.value);
      LaidNames(hs, s, job.value);
    }
  }

  lemma LaidNames(hs: Hashing, s: DiskState, job: Job)
    requires job.Fits()
    ensures Laid(hs, s, job).0.registry == s.registry && Laid(hs, s, job).0.origin == s.origin
  {
    hide Deal, EncodeShards, TextsOf, Das.Commit;
  }

  /** Whether the operation is a put under this name that wins. */
  ghost predicate WinsUnder(hs: Hashing, s: DiskState, op: Operation, name: string) {
    op.PutFile? && op.fileName == name && PutWins(hs, s, op.disk, name, op.data, op.now)
  }

  // ---------- the data of a run ----------

  /** What the last put that won wrote under a name. */
  ghost function LastWrite(hs: Hashing, ops: seq<Operation>, name: string): Option<seq<Byte>> {
    if ops == [] then None
    else
      var s, op := After(hs, ops[..|ops| - 1]), ops[|ops| - 1];
      if WinsUnder(hs, s, op, name) then Some(op.data)
      else LastWrite(hs, ops[..|ops| - 1], name)
  }

  /** Every map iteration of the run lists the keys it iterates. */
  ghost predicate OrdersList(ops: seq<Operation>) {
    && (forall i :: 0 <= i < |ops| && ops[i].Rechunk? ==> Lists(ops[i].order))
    && (forall i :: 0 <= i < |ops| && ops[i].Rebalance? ==> Lists(ops[i].order))
  }

  /** The registry holds exactly the names written, live, with the data last written. */
  ghost predicate Holding(s: DiskState, writes: string -> Option<seq<Byte>>) {
    && s.registry.Keys == s.origin.Keys
    && forall n :: (n in s.registry <==> writes(n).Some?) && (n in s.registry ==> Live(s, n) && s.origin[n].data == writes(n).value)
  }

  lemma SameHolding(s: DiskState, t: DiskState, writes: string -> Option<seq<Byte>>)
    requires Holding(s, writes) && t.registry.Keys == s.registry.Keys && t.origin.Keys == s.registry.Keys
    requires forall n :: n in s.registry ==> t.registry[n].deleted == s.registry[n].deleted && t.origin[n].data == s.origin[n].data
    ensures Holding(t, writes)
  {
  }

  lemma PutHolding(hs: Hashing, s: DiskState, op: Operation, writes: string -> Option<seq<Byte>>, writes': string -> Option<seq<Byte>>)
    requires op.PutFile? && Holding(s, writes)
    requires forall n :: writes'(n) == (if WinsUnder(hs, s, op, n) then Some(op.data) else writes(n))
    ensures Holding(Next(hs, s, op), writes')
  {
    hide Put, PutWins;
    PutWrites(hs, s, op.disk, op.fileName, op.data, op.now);
  }

  lemma RechunkHolding(hs: Hashing, s: DiskState, op: Operation, writes: string -> Option<seq<Byte>>)
    requires WellFormed(hs, s) && |s.attachments| <= MAX_DEVICES && CollisionFreeOn(hs.chunk, Next(hs, s, op).texts)
    requires op.Rechunk? && Lists(op.order) && Holding(s, writes)
    ensures Holding(Next(hs, s, op), writes)
  {
    hide WellFormed, Rechunked, Lists, CollisionFreeOn;
    RechunkMoves(hs, s, op.rechunked, op.clock, op.order);
    SameHolding(s, Next(hs, s, op), writes);
  }

  lemma HoldingStep(hs: Hashing, s: DiskState, op: Operation, writes: string -> Option<seq<Byte>>, writes': string -> Option<seq<Byte>>)
    requires WellFormed(hs, s) && |s.attachments| <= MAX_DEVICES && CollisionFreeOn(hs.chunk, Next(hs, s, op).texts)
    requires op.Rechunk? ==> Lists(op.order)
    requires Holding(s, writes)
    requires forall n :: writes'(n) == (if WinsUnder(hs, s, op, n) then Some(op.data) else writes(n))
    ensures Holding(Next(hs, s, op), writes')
  {
    hide WellFormed, Put, PutWins, Rechunked, CopiedAll, HashesOf, Lists, CollisionFreeOn;
    if op.PutFile? {
      PutHolding(hs, s, op, writes, writes');
    } else {
      if op.Rechunk? {
        RechunkHolding(hs, s, op, writes);
      } else {
        SameHolding(s, Next(hs, s, op), writes);
      }
      assert forall n :: writes'(n) == writes(n);
    }
  }

  lemma PrefixExtends(hs: Hashing, ops: seq<Operation>)
    requires ops != []
    ensures Extends(After(hs, ops[..|ops| - 1]), After(hs, ops))
  {
    hide WellFormed, Extends, Next;
    RunsAreWellFormed(hs, ops[..|ops| - 1]);
    NextKeeps(hs, After(hs, ops[..|ops| - 1]), ops[|ops| - 1]);
  }

  lemma {:induction false} DataOfRuns(hs: Hashing, ops: seq<Operation>)
    requires |After(hs, ops).attachments| <= MAX_DEVICES && CollisionFreeOn(hs.chunk, After(hs, ops).texts) && OrdersList(ops)
    ensures Holding(After(hs, ops), n => LastWrite(hs, ops, n))
  {
    hide WellFormed, Next, WinsUnder, Lists, CollisionFreeOn;
    if ops != [] {
      var before, op := ops[..|ops| - 1], ops[|ops| - 1];
      PrefixExtends(hs, ops);
      FewerTexts(hs.chunk, After(hs, before), After(hs, ops));
      DataOfRuns(hs, before);
      RunsAreWellFormed(hs, before);
      HoldingStep(hs, After(hs, before), op, n => LastWrite(hs, before, n), n => LastWrite(hs, ops, n));
    }
  }

  /** On every run, a name reads as what the last winning put wrote under it, and fails if none did. */
  lemma RunsRead(hs: Hashing, ops: seq<Operation>, name: string, order: Order)
    requires |After(hs, ops).attachments| <= MAX_DEVICES && CollisionFreeOn(hs.chunk, After(hs, ops).texts)
    requires OrdersList(ops) && Lists(order)
    ensures Read(After(hs, ops), name, order) ==
            if LastWrite(hs, ops, name).Some? then Success(LastWrite(hs, ops, name).value) else Failure("file not found")
  {
    hide WellFormed, After, LastWrite, Read, CollisionFreeOn, Lists, OrdersList;
    RunsAreWellFormed(hs, ops);
    DataOfRuns(hs, ops);
    var s := After(hs, ops);
    if Live(s, name) {
      AllRead(hs, s, name, order);
    } else {
      NotLive(s, name, order);
    }
  }
}
