/** The states of the virtual disk manager (src/vdisk.rs:85-98) and what each operation makes of them
    (src/vdisk.rs:102-564). A hash map is iterated in an arbitrary order, which is an input; so are the devices that a
    rebalance finds over and under their targets. */
module DiskStates {
  import opened Bytes
  import opened Erasure
  import opened Chunks
  import opened Words
  import Das
  import Sequences

  datatype Redundancy = Tolerate(f: nat) | Max

  datatype DiskConfig = DiskConfig(name: string, redundancy: Redundancy, shardCopies: nat)

  datatype DeviceAttachment = DeviceAttachment(deviceName: string, diskName: string, capacity: Amount)

  datatype FileEntry = FileEntry(
    name: string, originalLen: nat, k: nat, n: nat, shardHashes: seq<Digest>,
    timestamp: nat, entryHash: nat, deviceId: string, dasRoot: Digest, shardCopies: nat, deleted: bool)

  type EntryHash = (string, seq<Digest>, nat, string) -> nat
  type Stores = map<string, ChunkStore>

  /** The hash that names chunks, the one of the commitments and the one of the entries. */
  datatype Hashing = Hashing(chunk: Hash, root: Hash, entry: EntryHash)

  /** What a registry entry was made from: the file's bytes, and the devices, of which disk, its shards were dealt to. */
  datatype Origin = Origin(data: seq<Byte>, devices: seq<string>, disk: string)

  /** The manager's fields; what each entry was made from; and every chunk text hashed so far. */
  datatype DiskState = DiskState(
    disks: map<string, DiskConfig>, attachments: seq<DeviceAttachment>, stores: Stores, registry: map<string, FileEntry>,
    origin: map<string, Origin>, texts: set<seq<Byte>>)

  datatype Result<+T> = Success(value: T) | Failure(error: string) | Panicked

  /** The order in which a hash map with these keys is iterated. */
  type Order = set<string> -> seq<string>

  ghost predicate Lists(order: Order) {
    forall s: set<string> :: Sequences.NoDup(order(s)) && Sequences.Elements(order(s)) == s
  }

  function Empty(): DiskState {
    DiskState(map[], [], map[], map[], map[], {})
  }

  // ---------- sizes ----------

  function PowerFrom(n: nat, p: nat): (r: nat)
    requires IsPowerOfTwo(p) && p <= 2 * n
    ensures IsPowerOfTwo(r) && n <= r && r <= 2 * n
    decreases 2 * n - p
  {
    if p >= n then p else PowerFrom(n, 2 * p)
  }

  function NextPowerOfTwo(n: nat): (r: nat)
    requires n > 0
    ensures IsPowerOfTwo(r) && n <= r
  {
    PowerFrom(n, 1)
  }

  /** A tolerance of as many failures as there are devices, or more, panics. */
  predicate ToleranceFits(redundancy: Redundancy, devices: nat) {
    redundancy.Max? || redundancy.f < devices
  }

  function RequiredShards(redundancy: Redundancy, devices: nat): (k: nat)
    requires devices > 0 && ToleranceFits(redundancy, devices)
    ensures 1 <= k <= devices
  {
    match redundancy
    case Max => 1
    case Tolerate(f) => devices - f
  }

  /** The devices attached to a disk, in order. */
  function DevicesOn(attachments: seq<DeviceAttachment>, disk: string): (devices: seq<string>)
    ensures |devices| <= |attachments|
  {
    if attachments == [] then []
    else
      var last := attachments[|attachments| - 1];
      DevicesOn(attachments[..|attachments| - 1], disk) + if last.diskName == disk then [last.deviceName] else []
  }

  // ---------- disks and devices ----------

  function Created(s: DiskState, config: DiskConfig): (DiskState, Result<()>) {
    if config.name in s.disks then (s, Failure("disk already exists"))
    else (s.(disks := s.disks[config.name := config]), Success(()))
  }

  function Attached(s: DiskState, device: string, disk: string, capacity: Amount): (DiskState, Result<()>) {
    if disk !in s.disks then (s, Failure("disk does not exist"))
    else
      (s.(attachments := s.attachments + [DeviceAttachment(device, disk, capacity)],
          stores := if device in s.stores then s.stores else s.stores[device := EmptyStore(capacity)]),
       Success(()))
  }

  // ---------- storing ----------

  /** Stores, the hashes of the shards stored, and whether no device was full. */
  datatype Dealt = Dealt(stores: Stores, hashes: seq<Digest>, complete: bool)

  /** Shards go to devices round-robin; a full device stops the dealing, and nothing stored is undone. */
  function Deal(h: Hash, stores: Stores, shards: seq<Shard>, devices: seq<string>): Dealt
    requires devices != []
  {
    if shards == [] then Dealt(stores, [], true)
    else
      DealOne(h, Deal(h, stores, shards[..|shards| - 1], devices), shards[|shards| - 1], devices)
  }

  function DealOne(h: Hash, d: Dealt, shard: Shard, devices: seq<string>): Dealt
    requires devices != []
  {
    var device := devices[shard.index % |devices|];
    if !d.complete || device !in d.stores then d
    else
      match PutBytes(d.stores[device], h, ElementBytes(shard.data))
      case CapacityExceeded => d.(complete := false)
      case Stored(store, hash) => Dealt(d.stores[device := store], d.hashes + [hash], true)
  }

  function TextsOf(shards: seq<Shard>): set<seq<Byte>> {
    set i | 0 <= i < |shards| :: ElementBytes(shards[i].data)
  }

  function EntryOf(hs: Hashing, name: string, data: seq<Byte>, k: nat, n: nat, hashes: seq<Digest>, timestamp: nat,
                   shardCopies: nat): FileEntry
    requires 1 <= k <= n
  {
    FileEntry(name, |data|, k, n, hashes, timestamp, hs.entry(name, hashes, timestamp, "vdisk"), "vdisk",
              Das.Commit(hs.root, EncodeShards(data, k, n), k, |data|).root, shardCopies, false)
  }

  /** What is to be stored: a file under a name, for the devices of a disk. */
  datatype Job = Job(name: string, data: seq<Byte>, devices: seq<string>, disk: string, k: nat, timestamp: nat, shardCopies: nat) {
    predicate Fits() { 1 <= k <= |devices| }

    function N(): nat
      requires Fits()
    {
      NextPowerOfTwo(|devices|)
    }

    function AsOrigin(): Origin { Origin(data, devices, disk) }
  }

  /** The shards dealt, and the entry that describes them unless a device was full. */
  function Laid(hs: Hashing, s: DiskState, job: Job): (DiskState, Option<FileEntry>)
    requires job.Fits()
  {
    var shards := EncodeShards(job.data, job.k, job.N());
    var dealt := Deal(hs.chunk, s.stores, shards, job.devices);
    (s.(stores := dealt.stores, texts := s.texts + TextsOf(shards)),
     if dealt.complete then Some(EntryOf(hs, job.name, job.data, job.k, job.N(), dealt.hashes, job.timestamp, job.shardCopies))
     else None)
  }

  /** Last writer wins: later timestamp, ties to the larger entry hash. */
  predicate Supersedes(e: FileEntry, old_: FileEntry) {
    e.timestamp > old_.timestamp || (e.timestamp == old_.timestamp && e.entryHash > old_.entryHash)
  }

  predicate Wins(s: DiskState, e: FileEntry) {
    e.name !in s.registry || Supersedes(e, s.registry[e.name])
  }

  /** The registry keeps what supersedes. */
  function Registered(s: DiskState, e: FileEntry, o: Origin): DiskState {
    if Wins(s, e) then s.(registry := s.registry[e.name := e], origin := s.origin[e.name := o]) else s
  }

  /** Stored and registered, as far as the devices have room. */
  function Kept(hs: Hashing, s: DiskState, job: Job): (DiskState, Option<FileEntry>)
    requires job.Fits()
  {
    var (laid, entry) := Laid(hs, s, job);
    if entry.None? then (laid, None) else (Registered(laid, entry.value, job.AsOrigin()), entry)
  }

  /** What a put on a disk stores, or why it does not. */
  function PutJob(s: DiskState, disk: string, fileName: string, data: seq<Byte>, now: nat): (r: Result<Job>)
    ensures r.Success? ==> r.value.Fits()
  {
    if disk !in s.disks then Failure("disk not found")
    else
      var devices := DevicesOn(s.attachments, disk);
      if devices == [] then Failure("no devices attached to disk")
      else if !ToleranceFits(s.disks[disk].redundancy, |devices|) then Panicked
      else Success(Job(fileName, data, devices, disk, RequiredShards(s.disks[disk].redundancy, |devices|), now, 1))
  }

  function Put(hs: Hashing, s: DiskState, disk: string, fileName: string, data: seq<Byte>, now: nat): (DiskState, Result<Digest>) {
    match PutJob(s, disk, fileName, data, now)
    case Failure(error) => (s, Failure(error))
    case Panicked => (s, Panicked)
    case Success(job) =>
      var (after, entry) := Kept(hs, s, job);
      (after, if entry.Some? then Success(entry.value.dasRoot) else Failure("chunk store capacity exceeded"))
  }

  // ---------- reading ----------

  predicate Live(s: DiskState, name: string) {
    name in s.registry && !s.registry[name].deleted
  }

  predicate Holds(stores: Stores, device: string, hash: Digest) {
    device in stores && hash in stores[device].index
  }

  /** The first device of the list that has the chunk, from position i on. */
  function FirstHolder(stores: Stores, devices: seq<string>, hash: Digest, i: nat): (r: nat)
    requires i <= |devices|
    ensures i <= r <= |devices| && (r < |devices| ==> Holds(stores, devices[r], hash))
    ensures forall j :: i <= j < r ==> !Holds(stores, devices[j], hash)
    decreases |devices| - i
  {
    if i == |devices| || Holds(stores, devices[i], hash) then i else FirstHolder(stores, devices, hash, i + 1)
  }

  /** The shards found for the first hashes, in order. */
  function Collected(stores: Stores, devices: seq<string>, hashes: seq<Digest>): seq<Shard> {
    if hashes == [] then []
    else
      var i := |hashes| - 1;
      var holder := FirstHolder(stores, devices, hashes[i], 0);
      Collected(stores, devices, hashes[..i]) +
      if holder == |devices| then [] else [BytesToShard(i, stores[devices[holder]].index[hashes[i]])]
  }

  function Read(s: DiskState, fileName: string, order: Order): Result<seq<Byte>> {
    if !Live(s, fileName) then Failure("file not found")
    else
      var e := s.registry[fileName];
      var available := Collected(s.stores, order(s.stores.Keys), e.shardHashes);
      if |available| < e.k then Failure("not enough shards available")
      else
        match DecodeShards(available, e.k, e.n, e.originalLen)
        case Ok(data) => Success(data)
        case Err(_) => Failure("decoding failed")
        case Panic => Panicked
  }

  // ---------- rechunking ----------

  /** What a rechunk was called with, and the sizes it comes to. */
  datatype Rewrite = Rewrite(devices: seq<string>, disk: string, k: nat, shardCopies: nat) {
    predicate Fits() { devices != [] && k <= |devices| }

    function N(): nat
      requires Fits()
    {
      NextPowerOfTwo(|devices|)
    }

    predicate Outdated(e: FileEntry)
      requires Fits()
    {
      e.k != k || e.n != N()
    }

    /** A rewrite is stamped later than what it rewrites. */
    function JobFor(name: string, data: seq<Byte>, previous: nat, now: nat): Job {
      var later := SaturatingAdd(previous, 1);
      Job(name, data, devices, disk, k, if now > later then now else later, shardCopies)
    }
  }

  /** One file: read it; if it reads, store it anew, and otherwise skip it. */
  function RewriteOne(hs: Hashing, s: DiskState, rw: Rewrite, name: string, now: nat, order: Order): (DiskState, Result<bool>)
    requires rw.Fits()
  {
    match Read(s, name, order)
    case Failure(_) => (s, Success(false))
    case Panicked => (s, Panicked)
    case Success(data) =>
      if rw.k == 0 then (s, Panicked)
      else
        var (after, entry) := Kept(hs, s, rw.JobFor(name, data, s.registry[name].timestamp, now));
        (after, if entry.Some? then Success(true) else Failure("chunk store capacity exceeded"))
  }

  /** The files one after the other, up to the first error. */
  function RewriteAll(hs: Hashing, s: DiskState, rw: Rewrite, names: seq<string>, clock: nat -> nat, order: Order)
    : (DiskState, Result<(nat, nat)>)
    requires rw.Fits()
  {
    if names == [] then (s, Success((0, 0)))
    else
      var (before, counts) := RewriteAll(hs, s, rw, names[..|names| - 1], clock, order);
      if !counts.Success? then (before, counts)
      else
        var (after, r) := RewriteOne(hs, before, rw, names[|names| - 1], clock(|names| - 1), order);
        (after, Counted(counts.value, r))
  }

  function Counted(counts: (nat, nat), r: Result<bool>): Result<(nat, nat)> {
    match r
    case Failure(error) => Failure(error)
    case Panicked => Panicked
    case Success(rewritten) => Success(if rewritten then (counts.0 + 1, counts.1) else (counts.0, counts.1 + 1))
  }

  /** The names of the list whose entries are outdated. */
  function OutdatedNames(s: DiskState, rw: Rewrite, names: seq<string>): seq<string>
    requires rw.Fits()
  {
    if names == [] then []
    else
      var last := names[|names| - 1];
      OutdatedNames(s, rw, names[..|names| - 1]) + if last in s.registry && rw.Outdated(s.registry[last]) then [last] else []
  }

  /** What a rechunk of a disk does; nothing to do with fewer than two devices. */
  function RewriteFor(s: DiskState, disk: string): (r: Result<Option<Rewrite>>)
    ensures r.Success? && r.value.Some? ==> r.value.value.Fits()
  {
    if disk !in s.disks then Failure("disk not found")
    else
      var devices, config := DevicesOn(s.attachments, disk), s.disks[disk];
      if |devices| < 2 then Success(None)
      else if config.redundancy.Tolerate? && config.redundancy.f > |devices| then Panicked
      else Success(Some(Rewrite(devices, disk, if config.redundancy.Max? then 1 else |devices| - config.redundancy.f, config.shardCopies)))
  }

  function Rechunked(hs: Hashing, s: DiskState, disk: string, clock: nat -> nat, order: Order): (DiskState, Result<(nat, nat)>) {
    match RewriteFor(s, disk)
    case Failure(error) => (s, Failure(error))
    case Panicked => (s, Panicked)
    case Success(rw) =>
      if rw.None? then (s, Success((0, 0)))
      else RewriteAll(hs, s, rw.value, OutdatedNames(s, rw.value, order(s.registry.Keys)), clock, order)
  }

  // ---------- rebalancing ----------

  /** The first device of the list that has a store without the chunk, from position i on. */
  function FirstLacking(stores: Stores, devices: seq<string>, hash: Digest, i: nat): (r: nat)
    requires i <= |devices|
    ensures i <= r <= |devices| && (r < |devices| ==> devices[r] in stores && hash !in stores[devices[r]].index)
    decreases |devices| - i
  {
    if i == |devices| || (devices[i] in stores && hash !in stores[devices[i]].index) then i
    else FirstLacking(stores, devices, hash, i + 1)
  }

  /** One chunk, from the first over-full device that has it to the first under-full one that lacks it. */
  function CopiedOne(h: Hash, stores: Stores, hash: Digest, over: seq<string>, under: seq<string>): (Stores, bool) {
    var from, to := FirstHolder(stores, over, hash, 0), FirstLacking(stores, under, hash, 0);
    if from == |over| || to == |under| then (stores, false)
    else
      match PutBytes(stores[under[to]], h, ElementBytes(BytesElements(stores[over[from]].index[hash])))
      case CapacityExceeded => (stores, false)
      case Stored(store, _) => (stores[under[to] := store], true)
  }

  /** The chunks of a list, and how many of them were copied. */
  function CopiedAll(h: Hash, stores: Stores, hashes: seq<Digest>, over: seq<string>, under: seq<string>): (Stores, nat) {
    if hashes == [] then (stores, 0)
    else
      var (before, count) := CopiedAll(h, stores, hashes[..|hashes| - 1], over, under);
      var (after, copied) := CopiedOne(h, before, hashes[|hashes| - 1], over, under);
      (after, if copied then count + 1 else count)
  }

  /** The chunks of the live files of a list, in order. */
  function HashesOf(s: DiskState, names: seq<string>): seq<Digest> {
    if names == [] then []
    else
      var last := names[|names| - 1];
      HashesOf(s, names[..|names| - 1]) + if Live(s, last) then s.registry[last].shardHashes else []
  }

  function Rebalanced(hs: Hashing, s: DiskState, over: seq<string>, under: seq<string>, order: Order): (DiskState, nat) {
    var (stores, count) := CopiedAll(hs.chunk, s.stores, HashesOf(s, order(s.registry.Keys)), over, under);
    (s.(stores := stores), count)
  }

  // ---------- loss ----------

  /** The stores of these devices are gone. */
  function Lose(s: DiskState, lost: set<string>): DiskState {
    s.(stores := s.stores - lost)
  }

  // ---------- operations ----------

  datatype Operation =
    | CreateDisk(config: DiskConfig)
    | Attach(deviceName: string, diskName: string, capacity: Amount)
    | PutFile(disk: string, fileName: string, data: seq<Byte>, now: nat)
    | Rechunk(rechunked: string, clock: nat -> nat, order: Order)
    | Rebalance(over: seq<string>, under: seq<string>, order: Order)

  function Next(hs: Hashing, s: DiskState, op: Operation): DiskState {
    match op
    case CreateDisk(config) => Created(s, config).0
    case Attach(device, disk, capacity) => Attached(s, device, disk, capacity).0
    case PutFile(disk, fileName, data, now) => Put(hs, s, disk, fileName, data, now).0
    case Rechunk(disk, clock, order) => Rechunked(hs, s, disk, clock, order).0
    case Rebalance(over, under, order) => Rebalanced(hs, s, over, under, order).0
  }

  function After(hs: Hashing, ops: seq<Operation>): DiskState {
    if ops == [] then Empty() else Next(hs, After(hs, ops[..|ops| - 1]), ops[|ops| - 1])
  }
}
