/** Which losses of device stores a file survives (src/vdisk.rs:200-438): on every run with different device names as many
    as every disk tolerates; and what a rechunk of one disk does to the files of another. */
module DiskLosses {
  import opened Numbers
  import opened Goldilocks
  import opened Polynomial
  import opened Transform
  import opened Bytes
  import opened Erasure
  import opened Chunks
  import opened Words
  import opened DiskStates
  import opened DiskFacts
  import opened DiskRuns
  import opened Sequences

  // ---------- what survives ----------

  lemma CountOneMore(lost: set<string>, before: set<string>, d: string)
    requires d !in before
    ensures |lost * (before + {d})| == |lost * before| + if d in lost then 1 else 0
  {
    if d in lost {
      assert lost * (before + {d}) == lost * before + {d};
    } else {
      assert lost * (before + {d}) == lost * before;
    }
  }

  lemma ElementsSnoc(s: seq<string>, m: nat)
    requires 0 < m <= |s| && NoDup(s)
    ensures Elements(s[..m]) == Elements(s[..m - 1]) + {s[m - 1]}
    ensures s[m - 1] !in Elements(s[..m - 1])
  {
    assert s[..m] == s[..m - 1] + [s[m - 1]];
  }

  lemma HeldStep(hashes: seq<Digest>, stores: Stores, m: nat)
    requires 0 < m <= |hashes|
    ensures |HeldPositions(hashes, stores, m)|
         == |HeldPositions(hashes, stores, m - 1)| + if Held(hashes[m - 1], stores) then 1 else 0
  {
  }

  /** If only shards on lost devices are missing, the shards held number at least the devices that survive. */
  lemma {:induction false} SurvivorsHold(hashes: seq<Digest>, left: Stores, devices: seq<string>, lost: set<string>, m: nat)
    requires NoDup(devices) && m <= |devices| <= |hashes|
    requires forall i :: 0 <= i < |devices| && devices[i] !in lost ==> Held(hashes[i], left)
    ensures |HeldPositions(hashes, left, m)| >= m - |lost * Elements(devices[..m])|
  {
    hide HeldPositions, Held, NoDup, Elements;
    if m == 0 {
    } else {
      SurvivorsHold(hashes, left, devices, lost, m - 1);
      ElementsSnoc(devices, m);
      CountOneMore(lost, Elements(devices[..m - 1]), devices[m - 1]);
      HeldStep(hashes, left, m);
    }
  }

  lemma {:induction false} HeldMonotone(hashes: seq<Digest>, stores: Stores, m: nat, n: nat)
    requires m <= n <= |hashes|
    ensures |HeldPositions(hashes, stores, m)| <= |HeldPositions(hashes, stores, n)|
  {
    if m < n {
      HeldMonotone(hashes, stores, m, n - 1);
    }
  }

  /** The first |devices| shards sit on devices of their own, so one is lost only with its device. */
  lemma OwnDeviceHolds(e: FileEntry, o: Origin, stores: Stores, lost: set<string>, i: nat)
    requires Placed(e, o, stores) && i < |o.devices| <= |e.shardHashes| && o.devices[i] !in lost
    ensures Held(e.shardHashes[i], stores - lost)
  {
    assert i % |o.devices| == i;
    assert Holds(stores - lost, o.devices[i], e.shardHashes[i]);
  }

  /** With different devices, any |devices| - k of them can go. */
  lemma ToleratesLoss(h: Hash, e: FileEntry, o: Origin, stores: Stores, texts: set<seq<Byte>>, lost: set<string>)
    requires Describes(h, e, o, texts) && Placed(e, o, stores) && NoDup(o.devices)
    requires |lost * Elements(o.devices)| <= |o.devices| - e.k
    ensures |HeldPositions(e.shardHashes, stores - lost, e.n)| >= e.k
  {
    hide HeldPositions, Held;
    var m := |o.devices|;
    forall i | 0 <= i < m && o.devices[i] !in lost
      ensures Held(e.shardHashes[i], stores - lost)
    {
      OwnDeviceHolds(e, o, stores, lost, i);
    }
    SurvivorsHold(e.shardHashes, stores - lost, o.devices, lost, m);
    assert o.devices[..m] == o.devices;
    HeldMonotone(e.shardHashes, stores - lost, m, e.n);
  }

  /** How many failures a redundancy promises to tolerate with this many devices. */
  function Faults(redundancy: Redundancy, devices: nat): int {
    match redundancy
    case Max => devices - 1
    case Tolerate(f) => f
  }

  /** A live file reads back after the loss of as many of its devices as its disk tolerates, if they are different. */
  lemma FileTolerates(hs: Hashing, s: DiskState, name: string, lost: set<string>, order: Order)
    requires WellFormed(hs, s) && Live(s, name) && |s.attachments| <= MAX_DEVICES
    requires CollisionFreeOn(hs.chunk, s.texts) && Lists(order)
    requires name in s.origin && s.origin[name].disk in s.disks && NoDup(s.origin[name].devices)
    requires
      var o := s.origin[name];
      |lost * Elements(o.devices)| <= Faults(s.disks[o.disk].redundancy, |o.devices|)
    ensures Read(Lose(s, lost), name, order) == Success(s.origin[name].data)
  {
    hide Connected, HeldPositions, Lists, Read, NoDup, Elements, Placed, Describes;
    assert FileOk(hs, s, name);
    SizesFit(hs, s, name);
    ToleratesLoss(hs.chunk, s.registry[name], s.origin[name], s.stores, s.texts, lost);
    assert Filed(hs.chunk, s.stores - lost, s.texts) by { LessFiled(hs.chunk, s.stores, s.texts, lost); }
    ReadsIff(hs, Lose(s, lost), name, order);
  }

  lemma LessFiled(h: Hash, stores: Stores, texts: set<seq<Byte>>, lost: set<string>)
    requires Filed(h, stores, texts)
    ensures Filed(h, stores - lost, texts)
  {
    hide Canonical;
  }

  // ---------- in terms of the operations ----------

  /** No device is attached twice to one disk. */
  ghost predicate DifferentDevices(ops: seq<Operation>) {
    forall i, j :: 0 <= i < j < |ops| && ops[i].Attach? && ops[j].Attach? && ops[i].diskName == ops[j].diskName ==>
      ops[i].deviceName != ops[j].deviceName
  }

  /** Every disk is created to tolerate this many failures. */
  ghost predicate AllTolerate(ops: seq<Operation>, f: nat) {
    forall i :: 0 <= i < |ops| && ops[i].CreateDisk? ==> ops[i].config.redundancy.Tolerate? && ops[i].config.redundancy.f >= f
  }

  /** Disks and attachments change only by creating and attaching. */
  lemma SetupStep(hs: Hashing, s: DiskState, op: Operation)
    requires WellFormed(hs, s)
    ensures Next(hs, s, op).disks ==
            if op.CreateDisk? && op.config.name !in s.disks then s.disks[op.config.name := op.config] else s.disks
    ensures Next(hs, s, op).attachments ==
            if op.Attach? && op.diskName in s.disks
            then s.attachments + [DeviceAttachment(op.deviceName, op.diskName, op.capacity)] else s.attachments
    ensures op.Attach? ==>
      Next(hs, s, op).stores ==
        (if op.diskName in s.disks && op.deviceName !in s.stores
         then s.stores[op.deviceName := ChunkStore(map[], op.capacity, 0)] else s.stores)
  {
    hide WellFormed, Kept, PutJob, RewriteAll, RewriteFor, OutdatedNames, CopiedAll, HashesOf, RewriteOk, JobOk;
    match op {
      case PutFile(disk, fileName, data, now) => {
        PutJobOk(s, disk, fileName, data, now);
        var job := PutJob(s, disk, fileName, data, now);
        if job.Success? {
          KeptKeeps(hs, s, job.value);
        }
      }
      case Rechunk(disk, clock, order) => {
        RewriteForOk(s, disk);
        var rw := RewriteFor(s, disk);
        if rw.Success? && rw.value.Some? {
          RewriteAllKeeps(hs, s, rw.value.value, OutdatedNames(s, rw.value.value, order(s.registry.Keys)), clock, order);
        }
      }
      case _ => {}
    }
  }

  lemma {:induction false} DisksTolerate(hs: Hashing, ops: seq<Operation>, f: nat)
    requires AllTolerate(ops, f)
    ensures forall d :: d in After(hs, ops).disks ==>
      After(hs, ops).disks[d].redundancy.Tolerate? && After(hs, ops).disks[d].redundancy.f >= f
  {
    hide Next, WellFormed;
    if ops != [] {
      var before := ops[..|ops| - 1];
      assert forall i :: 0 <= i < |before| ==> before[i] == ops[i];
      DisksTolerate(hs, before, f);
      RunsAreWellFormed(hs, before);
      SetupStep(hs, After(hs, before), ops[|ops| - 1]);
    }
  }

  /** The devices of a disk come from the operations that attached them. */
  ghost predicate AttachedBy(ops: seq<Operation>, device: string, disk: string) {
    exists i :: 0 <= i < |ops| && ops[i].Attach? && ops[i].deviceName == device && ops[i].diskName == disk
  }

  lemma {:induction false} DevicesDiffer(hs: Hashing, ops: seq<Operation>, disk: string)
    requires DifferentDevices(ops)
    ensures NoDup(DevicesOn(After(hs, ops).attachments, disk))
    ensures forall d :: d in DevicesOn(After(hs, ops).attachments, disk) ==> AttachedBy(ops, d, disk)
  {
    hide Next, WellFormed;
    if ops != [] {
      var last := |ops| - 1;
      var before, op := ops[..last], ops[last];
      DevicesDiffer(hs, before, disk);
      RunsAreWellFormed(hs, before);
      SetupStep(hs, After(hs, before), op);
      var devices := DevicesOn(After(hs, before).attachments, disk);
      forall d | AttachedBy(before, d, disk)
        ensures AttachedBy(ops, d, disk)
      {
        var i :| 0 <= i < |before| && before[i].Attach? && before[i].deviceName == d && before[i].diskName == disk;
        assert ops[i] == before[i];
      }
      if op.Attach? && op.diskName == disk {
        NewDevice(ops, devices, disk);
        assert AttachedBy(ops, op.deviceName, disk);
        OneMoreDevice(After(hs, before).attachments, DeviceAttachment(op.deviceName, op.diskName, op.capacity), disk);
      } else if op.Attach? {
        OneMoreDevice(After(hs, before).attachments, DeviceAttachment(op.deviceName, op.diskName, op.capacity), disk);
      }
    }
  }

  lemma OneMoreDevice(attachments: seq<DeviceAttachment>, a: DeviceAttachment, disk: string)
    ensures DevicesOn(attachments + [a], disk) == DevicesOn(attachments, disk) + if a.diskName == disk then [a.deviceName] else []
  {
    assert (attachments + [a])[..|attachments|] == attachments;
  }

  lemma NewDevice(ops: seq<Operation>, devices: seq<string>, disk: string)
    requires ops != [] && DifferentDevices(ops) && NoDup(devices)
    requires ops[|ops| - 1].Attach? && ops[|ops| - 1].diskName == disk
    requires forall d :: d in devices ==> AttachedBy(ops[..|ops| - 1], d, disk)
    ensures NoDup(devices + [ops[|ops| - 1].deviceName])
  {
    var last := |ops| - 1;
    forall i | 0 <= i < |devices|
      ensures devices[i] != ops[last].deviceName
    {
      assert devices[i] in devices;
      var j :| 0 <= j < last && ops[..last][j].Attach? && ops[..last][j].deviceName == devices[i] && ops[..last][j].diskName == disk;
      assert ops[..last][j] == ops[j];
    }
  }

  /** On every run that attaches different devices to each disk and creates every disk to tolerate f failures: after the
      loss of any f device stores each name still reads as what was last written under it, in any order of looking. */
  lemma RunsSurvive(hs: Hashing, ops: seq<Operation>, lost: set<string>, name: string, order: Order)
    requires DifferentDevices(ops) && AllTolerate(ops, |lost|)
    requires |After(hs, ops).attachments| <= MAX_DEVICES && CollisionFreeOn(hs.chunk, After(hs, ops).texts)
    requires OrdersList(ops) && Lists(order)
    ensures Read(Lose(After(hs, ops), lost), name, order) ==
            if LastWrite(hs, ops, name).Some? then Success(LastWrite(hs, ops, name).value) else Failure("file not found")
  {
    hide After, LastWrite, Read, CollisionFreeOn, Lists, OrdersList, Filed, Connected, Describes, Placed, DifferentDevices, AllTolerate,
      Elements;
    RunsAreWellFormed(hs, ops);
    DataOfRuns(hs, ops);
    var s := After(hs, ops);
    if Live(s, name) {
      var o := s.origin[name];
      assert FileOk(hs, s, name);
      DisksTolerate(hs, ops, |lost|);
      DevicesDiffer(hs, ops, o.disk);
      assert NoDup(o.devices);
      assert |lost * Elements(o.devices)| <= |lost| by { SubsetSize(lost * Elements(o.devices), lost); }
      FileTolerates(hs, s, name, lost, order);
    } else {
      NotLive(Lose(s, lost), name, order);
    }
  }

  // ---------- two disks: the tolerance of a file is lost ----------

  /** A byte string of two elements, 0 and 1. */
  const TwoElements: seq<Byte> := [0, 0, 0, 0, 0, 0, 0, 1]

  /** Disk A tolerates a failure, disk B none; each has two devices. */
  function TwoDisks(): seq<Operation> {
    [CreateDisk(DiskConfig("A", Tolerate(1), 1)), Attach("a1", "A", 0), Attach("a2", "A", 0),
     CreateDisk(DiskConfig("B", Tolerate(0), 1)), Attach("b1", "B", 0), Attach("b2", "B", 0)]
  }

  function PutOnA(): Operation {
    PutFile("A", "f", TwoElements, 1)
  }

  /** What that comes to. */
  function TwoDisksState(): DiskState {
    DiskState(map["A" := DiskConfig("A", Tolerate(1), 1), "B" := DiskConfig("B", Tolerate(0), 1)],
              [DeviceAttachment("a1", "A", 0), DeviceAttachment("a2", "A", 0), DeviceAttachment("b1", "B", 0), DeviceAttachment("b2", "B", 0)],
              map["a1" := EmptyStore(0), "a2" := EmptyStore(0), "b1" := EmptyStore(0), "b2" := EmptyStore(0)],
              map[], map[], {})
  }

  lemma RunStep(hs: Hashing, ops: seq<Operation>, op: Operation)
    ensures After(hs, ops + [op]) == Next(hs, After(hs, ops), op)
  {
    assert (ops + [op])[..|ops|] == ops;
  }

  /** A new disk with two new devices, without a limit to their capacity. */
  lemma DiskOfTwo(hs: Hashing, ops: seq<Operation>, config: DiskConfig, d1: string, d2: string)
    requires config.name !in After(hs, ops).disks && d1 != d2
    requires d1 !in After(hs, ops).stores && d2 !in After(hs, ops).stores
    ensures
      var s := After(hs, ops);
      After(hs, ops + [CreateDisk(config), Attach(d1, config.name, 0), Attach(d2, config.name, 0)]) ==
        s.(disks := s.disks[config.name := config],
           attachments := s.attachments + [DeviceAttachment(d1, config.name, 0), DeviceAttachment(d2, config.name, 0)],
           stores := s.stores[d1 := EmptyStore(0)][d2 := EmptyStore(0)])
  {
    hide Put, Rechunked, Rebalanced, After;
    var s := After(hs, ops);
    RunStep(hs, ops, CreateDisk(config));
    RunStep(hs, ops + [CreateDisk(config)], Attach(d1, config.name, 0));
    RunStep(hs, ops + [CreateDisk(config)] + [Attach(d1, config.name, 0)], Attach(d2, config.name, 0));
    assert ops + [CreateDisk(config)] + [Attach(d1, config.name, 0)] + [Attach(d2, config.name, 0)]
        == ops + [CreateDisk(config), Attach(d1, config.name, 0), Attach(d2, config.name, 0)];
    var a1, a2 := DeviceAttachment(d1, config.name, 0), DeviceAttachment(d2, config.name, 0);
    assert s.attachments + [a1] + [a2] == s.attachments + [a1, a2];
  }

  lemma TwoDisksRun(hs: Hashing)
    ensures After(hs, TwoDisks()) == TwoDisksState()
  {
    hide Next;
    var ops := TwoDisks();
    DiskOfTwo(hs, [], DiskConfig("A", Tolerate(1), 1), "a1", "a2");
    assert [] + ops[..3] == ops[..3] == [ops[0], ops[1], ops[2]];
    assert ops == ops[..3] + [ops[3], ops[4], ops[5]];
    DiskOfTwo(hs, ops[..3], DiskConfig("B", Tolerate(0), 1), "b1", "b2");
  }

  lemma TwoDisksDevices()
    ensures DevicesOn(TwoDisksState().attachments, "A") == ["a1", "a2"]
    ensures DevicesOn(TwoDisksState().attachments, "B") == ["b1", "b2"]
  {
    var at := TwoDisksState().attachments;
    OneMoreDevice([], at[0], "A");
    OneMoreDevice([at[0]], at[1], "A");
    OneMoreDevice([at[0], at[1]], at[2], "A");
    OneMoreDevice([at[0], at[1], at[2]], at[3], "A");
    OneMoreDevice([], at[0], "B");
    OneMoreDevice([at[0]], at[1], "B");
    OneMoreDevice([at[0], at[1]], at[2], "B");
    OneMoreDevice([at[0], at[1], at[2]], at[3], "B");
    assert [] + [at[0]] == [at[0]];
    assert [at[0]] + [at[1]] == [at[0], at[1]];
    assert [at[0], at[1]] + [at[2]] == [at[0], at[1], at[2]];
    assert [at[0], at[1], at[2]] + [at[3]] == at;
  }

  /** No store has a limit to its capacity. */
  ghost predicate Unlimited(stores: Stores) {
    forall d :: d in stores ==> stores[d].capacity == 0
  }

  /** Without a limit everything is dealt. */
  lemma {:induction false} DealComplete(h: Hash, stores: Stores, shards: seq<Shard>, devices: seq<string>)
    requires devices != [] && Unlimited(stores) && forall d :: d in devices ==> d in stores
    ensures
      var d := Deal(h, stores, shards, devices);
      d.complete && Unlimited(d.stores) && d.stores.Keys == stores.Keys
  {
    hide ElementBytes;
    if shards != [] {
      DealComplete(h, stores, shards[..|shards| - 1], devices);
    }
  }

  /** What a device holds after dealing, it held before or was dealt. */
  lemma {:induction false} DealContents(h: Hash, stores: Stores, shards: seq<Shard>, devices: seq<string>, d: string, c: Digest)
    requires devices != [] && Holds(Deal(h, stores, shards, devices).stores, d, c)
    ensures Holds(stores, d, c)
            || exists i :: 0 <= i < |shards| && devices[shards[i].index % |devices|] == d && c == h(ElementBytes(shards[i].data))
  {
    hide ElementBytes;
    if shards != [] {
      var last := |shards| - 1;
      if Holds(Deal(h, stores, shards[..last], devices).stores, d, c) {
        DealContents(h, stores, shards[..last], devices, d, c);
        if i :| 0 <= i < last && devices[shards[..last][i].index % |devices|] == d && c == h(ElementBytes(shards[..last][i].data)) {
          assert shards[i] == shards[..last][i];
        }
      } else {
        assert devices[shards[last].index % |devices|] == d && c == h(ElementBytes(shards[last].data));
      }
    }
  }

  lemma KeptStores(hs: Hashing, s: DiskState, job: Job)
    requires job.Fits()
    ensures
      var shards := EncodeShards(job.data, job.k, job.N());
      var d := Deal(hs.chunk, s.stores, shards, job.devices);
      && Kept(hs, s, job).0.stores == d.stores && (Kept(hs, s, job).1.Some? <==> d.complete)
      && Kept(hs, s, job).0.texts == s.texts + TextsOf(shards)
  {
    hide Deal, EncodeShards, TextsOf, Das.Commit, Supersedes;
  }

  /** A file kept on two devices without a limit: what it adds to the stores, and the entry. */
  lemma KeptOnTwo(hs: Hashing, s: DiskState, job: Job)
    requires |job.devices| == 2 && job.Fits() && Unlimited(s.stores) && forall d :: d in job.devices ==> d in s.stores
    ensures
      var t := Kept(hs, s, job).0;
      && Kept(hs, s, job).1.Some? && Unlimited(t.stores) && t.stores.Keys == s.stores.Keys
      && (forall i :: 0 <= i < 2 ==> ElementBytes(EncodedShard(job.data, job.k, 2, i).data) in t.texts)
      && forall d, c :: Holds(t.stores, d, c) ==>
           Holds(s.stores, d, c)
           || exists i :: 0 <= i < 2 && job.devices[i] == d && c == hs.chunk(ElementBytes(EncodedShard(job.data, job.k, 2, i).data))
  {
    hide Deal, Kept, ElementBytes, EncodedShard, PowerFrom;
    TwoIsNext();
    var shards := EncodeShards(job.data, job.k, 2);
    KeptStores(hs, s, job);
    DealComplete(hs.chunk, s.stores, shards, job.devices);
    var t := Kept(hs, s, job).0;
    forall d, c | Holds(t.stores, d, c)
      ensures Holds(s.stores, d, c)
           || exists i :: 0 <= i < 2 && job.devices[i] == d && c == hs.chunk(ElementBytes(EncodedShard(job.data, job.k, 2, i).data))
    {
      DealContents(hs.chunk, s.stores, shards, job.devices, d, c);
      if i :| 0 <= i < |shards| && job.devices[shards[i].index % 2] == d && c == hs.chunk(ElementBytes(shards[i].data)) {
        ShardsNumbered(job.data, job.k, 2);
        assert shards[i] == EncodedShard(job.data, job.k, 2, i) && shards[i].index == i;
      }
    }
    forall i | 0 <= i < 2
      ensures ElementBytes(EncodedShard(job.data, job.k, 2, i).data) in t.texts
    {
      assert shards[i] == EncodedShard(job.data, job.k, 2, i);
      assert ElementBytes(shards[i].data) in TextsOf(shards);
    }
  }

  lemma TwoIsNext()
    ensures NextPowerOfTwo(2) == 2
  {
    assert PowerFrom(2, 2) == 2;
  }

  // ---------- the shards of the example ----------

  lemma TwoElementsPacked()
    ensures Pack(TwoElements) == [0, 1]
  {
    var data, low: seq<Byte>, high: seq<Byte> := TwoElements, TwoElements[..7], [1];
    assert data[7..] == high && high[1..] == [];
    assert low == ZeroBytes(7);
    ToLEZero(7);
    FromLEToLE(0, 7);
    assert FromLE(high) == 1;
    assert Pack(high) == [1];
  }

  /** For k = 1 a shard of it has two elements. */
  lemma ShardsOnA(i: nat)
    requires i < 2
    ensures |EncodedShard(TwoElements, 1, 2, i).data| == 2
  {
    hide Codeword;
    TwoElementsPacked();
  }

  /** For k = 2 the two shards have one element each, and not the same. */
  lemma ShardsOnB()
    ensures |EncodedShard(TwoElements, 2, 2, 0).data| == |EncodedShard(TwoElements, 2, 2, 1).data| == 1
    ensures EncodedShard(TwoElements, 2, 2, 0).data != EncodedShard(TwoElements, 2, 2, 1).data
  {
    TwoElementsPacked();
    hide Codeword, Pack, Cong, Omega, Pow;
    CodewordOnB(0);
    CodewordOnB(1);
    var c := Codeword(TwoElements, 2, 2, 0);
    assert EncodedShard(TwoElements, 2, 2, 0).data == [c[0]] && EncodedShard(TwoElements, 2, 2, 1).data == [c[1]];
    if c[0] == c[1] {
      CongSym(c[0], Pow(Omega(2), 0), P);
      CongTrans(Pow(Omega(2), 0), c[0], Pow(Omega(2), 1), P);
      PowerOfTwoIsTransformSize(2);
      OmegaPowersDistinct(2, 0, 1);
    }
  }

  lemma CodewordOnB(s: nat)
    requires s < 2
    ensures Pack(TwoElements) == [0, 1]
    ensures Cong(Codeword(TwoElements, 2, 2, 0)[s], Pow(Omega(2), s), P)
  {
    TwoElementsPacked();
    hide Codeword, Pack, Cong, Omega, Pow;
    CodewordValue(TwoElements, 2, 2, 0, s);
    var x := Reduce(Pow(Omega(2), s));
    assert Padded(TwoElements, 2) == [0, 1];
    assert Group([0, 1], 2, 1, 0) == [0, 1];
    assert Eval([0, 1], x) == x by { EvalTwo(x); }
    CongMod(Pow(Omega(2), s), P);
    CongTrans(Codeword(TwoElements, 2, 2, 0)[s], x, Pow(Omega(2), s), P);
  }

  lemma EvalTwo(x: int)
    ensures Eval([0, 1], x) == x
  {
    var c: seq<int> := [0, 1];
    assert c[1..] == [1] && c[1..][1..] == [];
    assert Eval(c[1..], x) == 1 + x * 0;
    assert Eval(c, x) == 0 + x * 1;
  }

  // ---------- the example ----------

  ghost function TextAt(k: nat, i: nat): seq<Byte>
    requires 1 <= k <= 2 && i < 2
  {
    ElementBytes(EncodedShard(TwoElements, k, 2, i).data)
  }

  /** The put: one shard on each device of A. */
  lemma AfterPut(hs: Hashing)
    ensures
      var s := Put(hs, TwoDisksState(), "A", "f", TwoElements, 1).0;
      && s.registry.Keys == {"f"} == s.origin.Keys && s.disks == TwoDisksState().disks && s.attachments == TwoDisksState().attachments
      && s.registry["f"].k == 1 && s.registry["f"].n == 2 && s.registry["f"].timestamp == 1 && !s.registry["f"].deleted
      && s.registry["f"].name == "f" && s.origin["f"] == Origin(TwoElements, ["a1", "a2"], "A")
      && Unlimited(s.stores) && s.stores.Keys == TwoDisksState().stores.Keys
      && TextAt(1, 0) in s.texts && TextAt(1, 1) in s.texts
      && forall d, c :: Holds(s.stores, d, c) ==>
           (d == "a1" || d == "a2") && (c == hs.chunk(TextAt(1, 0)) || c == hs.chunk(TextAt(1, 1)))
  {
    hide Kept, ElementBytes, EncodedShard, PowerFrom, DevicesOn;
    var s0 := TwoDisksState();
    TwoDisksDevices();
    TwoIsNext();
    var job := Job("f", TwoElements, ["a1", "a2"], "A", 1, 1, 1);
    assert PutJob(s0, "A", "f", TwoElements, 1) == Success(job);
    KeptOnTwo(hs, s0, job);
    KeptRegisters(hs, s0, job);
    KeptKeepsSetup(hs, s0, job);
    var s := Kept(hs, s0, job).0;
    forall d, c | Holds(s.stores, d, c)
      ensures (d == "a1" || d == "a2") && (c == hs.chunk(TextAt(1, 0)) || c == hs.chunk(TextAt(1, 1)))
    {
      assert !Holds(s0.stores, d, c);
    }
  }

  lemma KeptKeepsSetup(hs: Hashing, s: DiskState, job: Job)
    requires job.Fits()
    ensures Kept(hs, s, job).0.disks == s.disks && Kept(hs, s, job).0.attachments == s.attachments
  {
    hide Deal, EncodeShards, TextsOf, Das.Commit, Supersedes;
  }

  /** The state of the example before the rechunk. */
  ghost predicate OnA(hs: Hashing, s: DiskState) {
    && WellFormed(hs, s)
    && s.registry.Keys == {"f"} == s.origin.Keys && s.disks == TwoDisksState().disks && s.attachments == TwoDisksState().attachments
    && s.registry["f"].k == 1 && s.registry["f"].n == 2 && s.registry["f"].timestamp == 1 && !s.registry["f"].deleted
    && s.registry["f"].name == "f" && s.origin["f"] == Origin(TwoElements, ["a1", "a2"], "A")
    && Unlimited(s.stores) && s.stores.Keys == TwoDisksState().stores.Keys
    && TextAt(1, 0) in s.texts && TextAt(1, 1) in s.texts
    && forall d, c :: Holds(s.stores, d, c) ==>
         (d == "a1" || d == "a2") && (c == hs.chunk(TextAt(1, 0)) || c == hs.chunk(TextAt(1, 1)))
  }

  /** The rechunk of B rewrites the one file. */
  lemma RewriteOfB(s: DiskState)
    requires s.disks == TwoDisksState().disks && s.attachments == TwoDisksState().attachments
    ensures RewriteFor(s, "B") == Success(Some(Rewrite(["b1", "b2"], "B", 2, 1)))
  {
    hide DevicesOn;
    TwoDisksDevices();
  }

  lemma OneOutdated(s: DiskState, rw: Rewrite, name: string)
    requires rw.Fits() && name in s.registry && s.registry[name].k != rw.k
    ensures OutdatedNames(s, rw, [name]) == [name]
  {
    hide NextPowerOfTwo;
    assert [name][..0] == [];
    assert OutdatedNames(s, rw, [name][..0]) == [];
  }

  lemma OneRewritten(hs: Hashing, s: DiskState, rw: Rewrite, name: string, data: seq<Byte>, clock: nat -> nat, order: Order)
    requires rw.Fits() && rw.k > 0 && name in s.registry && Read(s, name, order) == Success(data)
    ensures
      var job := rw.JobFor(name, data, s.registry[name].timestamp, clock(0));
      job.Fits() && RewriteAll(hs, s, rw, [name], clock, order).0 == Kept(hs, s, job).0
  {
    hide Read, Kept;
    RewriteSplit(hs, s, rw, [name], clock, order);
    assert [name][..0] == [];
  }

  lemma RechunkIsKept(hs: Hashing, s: DiskState, clock: nat -> nat, order: Order)
    requires OnA(hs, s) && Lists(order) && CollisionFreeOn(hs.chunk, s.texts)
    ensures
      var rw := Rewrite(["b1", "b2"], "B", 2, 1);
      && rw.Fits() && rw.JobFor("f", TwoElements, 1, clock(0)).Fits()
      && Rechunked(hs, s, "B", clock, order).0 == Kept(hs, s, rw.JobFor("f", TwoElements, 1, clock(0))).0
  {
    hide Kept, Connected, Filed, FileOk, CollisionFreeOn, RewriteAll, RewriteFor, OutdatedNames, Read, TwoDisksState;
    var rw := Rewrite(["b1", "b2"], "B", 2, 1);
    ReadOnA(hs, s, order);
    RewriteOfB(s);
    OneOutdated(s, rw, "f");
    OneRewritten(hs, s, rw, "f", TwoElements, clock, order);
    var names := order(s.registry.Keys);
    ListedNames(order, s.registry.Keys);
    OnlyOne(names, "f");
  }

  lemma ReadOnA(hs: Hashing, s: DiskState, order: Order)
    requires OnA(hs, s) && Lists(order) && CollisionFreeOn(hs.chunk, s.texts)
    ensures Read(s, "f", order) == Success(TwoElements)
  {
    hide Read, Filed, FileOk, Lists, CollisionFreeOn, Connected;
    AllRead(hs, s, "f", order);
  }

  lemma OnlyOne(names: seq<string>, name: string)
    requires NoDup(names) && forall n :: n in names <==> n in {name}
    ensures names == [name]
  {
    NoDupCardinality(names);
    assert Elements(names) == {name};
    assert names[0] in names;
  }

  /** The state of the example after it: one shard on each device of B, and only there. */
  ghost predicate OnB(hs: Hashing, t: DiskState) {
    && t.registry.Keys == {"f"} == t.origin.Keys && |t.attachments| <= MAX_DEVICES
    && t.registry["f"].k == 2 && t.registry["f"].n == 2 && !t.registry["f"].deleted
    && t.origin["f"] == Origin(TwoElements, ["b1", "b2"], "B")
    && BHolds(hs, t)
  }

  ghost predicate BHolds(hs: Hashing, t: DiskState) {
    && TextAt(1, 0) in t.texts && TextAt(1, 1) in t.texts && TextAt(2, 0) in t.texts && TextAt(2, 1) in t.texts
    && forall d, c :: Holds(t.stores, d, c) ==>
         c == hs.chunk(TextAt(1, 0)) || c == hs.chunk(TextAt(1, 1))
         || (d == "b1" && c == hs.chunk(TextAt(2, 0))) || (d == "b2" && c == hs.chunk(TextAt(2, 1)))
  }

  lemma AfterRechunk(hs: Hashing, s: DiskState, clock: nat -> nat, order: Order)
    requires OnA(hs, s) && Lists(order) && CollisionFreeOn(hs.chunk, s.texts)
    ensures OnB(hs, Rechunked(hs, s, "B", clock, order).0)
  {
    RechunkIsKept(hs, s, clock, order);
    hide Kept, WellFormed, Rechunked, Lists, CollisionFreeOn, BHolds, OnA, OnB;
    TwoIsNext();
    KeptGivesB(hs, s, Rewrite(["b1", "b2"], "B", 2, 1).JobFor("f", TwoElements, 1, clock(0)));
  }

  lemma KeptGivesB(hs: Hashing, s: DiskState, job: Job)
    requires OnA(hs, s) && job.Fits() && job.devices == ["b1", "b2"] && job.k == 2 && job.data == TwoElements
    requires job.name == "f" && job.disk == "B" && job.timestamp > 1
    ensures OnB(hs, Kept(hs, s, job).0)
  {
    hide Kept, WellFormed, BHolds, TextAt, Holds;
    TwoIsNext();
    KeptRegisters(hs, s, job);
    KeptKeepsSetup(hs, s, job);
    KeptOnB(hs, s, job);
    assert Kept(hs, s, job).1.Some? by { KeptOnTwo(hs, s, job); }
  }

  lemma KeptOnB(hs: Hashing, s: DiskState, job: Job)
    requires OnA(hs, s) && job.Fits() && job.devices == ["b1", "b2"] && job.k == 2 && job.data == TwoElements
    ensures BHolds(hs, Kept(hs, s, job).0)
  {
    hide Kept, ElementBytes, EncodedShard, PowerFrom, WellFormed;
    KeptOnTwo(hs, s, job);
    KeptStores(hs, s, job);
    var t := Kept(hs, s, job).0;
    assert ElementBytes(EncodedShard(job.data, job.k, 2, 0).data) == TextAt(2, 0);
    assert ElementBytes(EncodedShard(job.data, job.k, 2, 1).data) == TextAt(2, 1);
  }

  /** The first shard is lost with b1. */
  lemma FirstShardIsLost(hs: Hashing, t: DiskState)
    requires CollisionFreeOn(hs.chunk, t.texts) && BHolds(hs, t)
    ensures !Held(hs.chunk(TextAt(2, 0)), t.stores - {"b1"})
  {
    hide EncodedShard, ElementBytes;
    ShardsOnA(0);
    ShardsOnA(1);
    ShardsOnB();
    BytesElementsInverse(EncodedShard(TwoElements, 2, 2, 0).data);
    BytesElementsInverse(EncodedShard(TwoElements, 2, 2, 1).data);
    assert |TextAt(1, 0)| == |TextAt(1, 1)| == 16 && |TextAt(2, 0)| == 8 && TextAt(2, 0) != TextAt(2, 1);
    assert forall d :: Holds(t.stores - {"b1"}, d, hs.chunk(TextAt(2, 0))) ==> Holds(t.stores, d, hs.chunk(TextAt(2, 0)));
  }

  /** With several disks a file loses its tolerance: put on a disk that tolerates a failure, it survives the loss of any
      device; after a rechunk of the other disk it does not survive the loss of b1, which is not even a device of its disk. */
  lemma ToleranceIsLost(hs: Hashing, clock: nat -> nat, order: Order, look: Order)
    requires Lists(order) && Lists(look)
    requires CollisionFreeOn(hs.chunk, After(hs, TwoDisks() + [PutOnA()] + [Rechunk("B", clock, order)]).texts)
    ensures
      var put := TwoDisks() + [PutOnA()];
      var ops := put + [Rechunk("B", clock, order)];
      && (forall d :: Read(Lose(After(hs, put), {d}), "f", look) == Success(TwoElements))
      && Read(After(hs, ops), "f", look) == Success(TwoElements)
      && Read(Lose(After(hs, ops), {"b1"}), "f", look) == Failure("not enough shards available")
  {
    hide After, Read, Lists, CollisionFreeOn, TwoDisks, OnA, OnB, WellFormed, Rechunked, Extends;
    var put := TwoDisks() + [PutOnA()];
    var ops := put + [Rechunk("B", clock, order)];
    var s, t := After(hs, put), After(hs, ops);
    assert ops[..|ops| - 1] == put;
    PrefixExtends(hs, ops);
    FewerTexts(hs.chunk, s, t);
    ExampleState(hs);
    RunsAreWellFormed(hs, ops);
    RunStep(hs, put, Rechunk("B", clock, order));
    AfterRechunk(hs, s, clock, order);
    forall d
      ensures Read(Lose(s, {d}), "f", look) == Success(TwoElements)
    {
      SurvivesAny(hs, s, d, look);
    }
    ReadOnB(hs, t, look);
    LostWithB1(hs, t, look);
  }

  lemma ReadOnB(hs: Hashing, t: DiskState, look: Order)
    requires WellFormed(hs, t) && OnB(hs, t) && Lists(look) && CollisionFreeOn(hs.chunk, t.texts)
    ensures Read(t, "f", look) == Success(TwoElements)
  {
    hide WellFormed, Read, Lists, CollisionFreeOn, BHolds;
    AllRead(hs, t, "f", look);
  }

  lemma ExampleState(hs: Hashing)
    ensures OnA(hs, After(hs, TwoDisks() + [PutOnA()]))
  {
    hide WellFormed, Put, TwoDisks, TextAt;
    RunsAreWellFormed(hs, TwoDisks() + [PutOnA()]);
    TwoDisksRun(hs);
    RunStep(hs, TwoDisks(), PutOnA());
    AfterPut(hs);
  }

  lemma SurvivesAny(hs: Hashing, s: DiskState, d: string, look: Order)
    requires OnA(hs, s) && Lists(look) && CollisionFreeOn(hs.chunk, s.texts)
    ensures Read(Lose(s, {d}), "f", look) == Success(TwoElements)
  {
    hide WellFormed, Read, Lists, CollisionFreeOn;
    var devices := s.origin["f"].devices;
    assert |{d} * Elements(devices)| <= 1 by { SubsetSize({d} * Elements(devices), {d}); }
    FileTolerates(hs, s, "f", {d}, look);
  }

  lemma LostWithB1(hs: Hashing, t: DiskState, look: Order)
    requires WellFormed(hs, t) && Lists(look) && CollisionFreeOn(hs.chunk, t.texts)
    requires OnB(hs, t)
    ensures Read(Lose(t, {"b1"}), "f", look) == Failure("not enough shards available")
  {
    FirstShardIsLost(hs, t);
    hide Read, Lists, CollisionFreeOn, Held, Connected, Placed, Sized, Filed, ElementBytes, EncodedShard, HeldPositions, BHolds;
    assert FileOk(hs, t, "f");
    var left, hashes := t.stores - {"b1"}, t.registry["f"].shardHashes;
    assert hashes[0] == hs.chunk(TextAt(2, 0));
    NothingHeld(hashes, left);
    HeldStep(hashes, left, 1);
    HeldStep(hashes, left, 2);
    LessFiled(hs.chunk, t.stores, t.texts, {"b1"});
    ReadsIff(hs, Lose(t, {"b1"}), "f", look);
  }

  lemma NothingHeld(hashes: seq<Digest>, stores: Stores)
    ensures HeldPositions(hashes, stores, 0) == []
  {
  }
}
