/** The replicated file registry (src/store.rs:257-406): last writer wins by (timestamp, entry hash). Merging in any
    order leaves every replica with the newest entry of its history. */
module Registry {
  import opened Sequences
  import opened Sorting
  import DiskStates

  type FileEntry = DiskStates.FileEntry
  type Files = map<string, FileEntry>

  /** Every entry is filed under its own name. */
  ghost predicate Keyed(files: Files) {
    forall n :: n in files ==> files[n].name == n
  }

  predicate SameStamp(a: FileEntry, b: FileEntry) {
    a.timestamp == b.timestamp && a.entryHash == b.entryHash
  }

  // ---------- insert, merge, delta ----------

  function Inserted(files: Files, entry: FileEntry): Files {
    if entry.name !in files || DiskStates.Supersedes(entry, files[entry.name]) then files[entry.name := entry] else files
  }

  /** Per name, the other entry if it supersedes this one. */
  function Merged(a: Files, b: Files): (r: Files)
    ensures r.Keys == a.Keys + b.Keys
  {
    map n | n in a.Keys + b.Keys :: if n in b && (n !in a || DiskStates.Supersedes(b[n], a[n])) then b[n] else a[n]
  }

  function DeltaSince(files: Files, since: nat): Files {
    map n | n in files && files[n].timestamp > since :: files[n]
  }

  class GSet {
    var files: Files

    constructor ()
      ensures files == map[]
    {
      files := map[];
    }

    method LwwInsert(entry: FileEntry)
      modifies this
      ensures files == Inserted(old(files), entry)
    {
      if entry.name in files {
        var existing := files[entry.name];
        if entry.timestamp > existing.timestamp
           || (entry.timestamp == existing.timestamp && entry.entryHash > existing.entryHash) {
          files := files[entry.name := entry];
        }
      } else {
        files := files[entry.name := entry];
      }
    }

    /** Inserts the other set's entries one by one, in whatever order the map yields them. */
    method Merge(other: Files)
      requires Keyed(other)
      modifies this
      ensures files == Merged(old(files), other)
    {
      hide Inserted, Merged;
      var rest := other.Keys;
      ghost var start, done: Files := files, map[];
      MergeNothing(files);
      while rest != {}
        invariant rest <= other.Keys && done.Keys == other.Keys - rest
        invariant forall n :: n in done ==> done[n] == other[n]
        invariant files == Merged(start, done)
        decreases |rest|
      {
        var n :| n in rest;
        MergeOne(start, done, other[n]);
        LwwInsert(other[n]);
        done := done[n := other[n]];
        rest := rest - {n};
      }
      assert done == other;
    }

    method Delta(since: nat) returns (delta: GSet)
      requires Keyed(files)
      ensures fresh(delta) && delta.files == DeltaSince(files, since)
    {
      delta := new GSet();
      var rest := files.Keys;
      while rest != {}
        invariant rest <= files.Keys
        invariant delta.files == map n | n in files && n !in rest && files[n].timestamp > since :: files[n]
        decreases |rest|
      {
        var n :| n in rest;
        if files[n].timestamp > since {
          delta.LwwInsert(files[n]);
        }
        rest := rest - {n};
      }
    }

    /** The hashes of the entries, collected in whatever order, sorted and hashed. */
    method MerkleRoot(h: seq<nat> -> nat) returns (root: nat)
      ensures IsRoot(h, files, root)
    {
      hide Map, NoDup, Elements;
      var hashes, rest := [], files.Keys;
      NoNames(HashAt(files));
      ghost var listing: seq<string> := [];
      while rest != {}
        invariant rest <= files.Keys && NoDup(listing) && Elements(listing) == files.Keys - rest
        invariant hashes == Map(HashAt(files), listing)
        decreases |rest|
      {
        var n :| n in rest;
        assert n !in Elements(listing);
        MapSnoc(HashAt(files), listing, n);
        NamesSnoc(listing, n);
        hashes, listing, rest := hashes + [files[n].entryHash], listing + [n], rest - {n};
      }
      root := RootOf(h, hashes);
    }
  }

  lemma MergeNothing(a: Files)
    ensures Merged(a, map[]) == a
  {
  }

  lemma MergeOne(a: Files, part: Files, e: FileEntry)
    requires e.name !in part
    ensures Inserted(Merged(a, part), e) == Merged(a, part[e.name := e])
  {
    var (l, r) := (Inserted(Merged(a, part), e), Merged(a, part[e.name := e]));
    assert l.Keys == r.Keys;
    assert forall n :: n in l ==> l[n] == r[n];
  }

  // ---------- the laws of merging ----------

  lemma MergeIdempotent(a: Files)
    ensures Merged(a, a) == a
  {
  }

  lemma MergeAssociative(a: Files, b: Files, c: Files)
    ensures Merged(Merged(a, b), c) == Merged(a, Merged(b, c))
  {
    var (l, r) := (Merged(Merged(a, b), c), Merged(a, Merged(b, c)));
    assert l.Keys == r.Keys;
    assert forall n :: n in l ==> l[n] == r[n];
  }

  /** Which writer wins does not depend on who merges whom. */
  lemma MergeCommutesOnStamps(a: Files, b: Files, n: string)
    requires n in a || n in b
    ensures SameStamp(Merged(a, b)[n], Merged(b, a)[n])
  {
  }

  /** Whole entries agree exactly when entries with the same stamp do: the hash does not cover every field. */
  lemma MergeCommutesIff(a: Files, b: Files)
    ensures Merged(a, b) == Merged(b, a) <==> forall n :: n in a && n in b && SameStamp(a[n], b[n]) ==> a[n] == b[n]
  {
    if Merged(a, b) == Merged(b, a) {
      forall n | n in a && n in b && SameStamp(a[n], b[n])
        ensures a[n] == b[n]
      {
        assert Merged(a, b)[n] == a[n] && Merged(b, a)[n] == b[n];
      }
    } else {
      var n :| n in Merged(a, b) && Merged(a, b)[n] != Merged(b, a)[n];
      assert n in a && n in b && SameStamp(a[n], b[n]);
    }
  }

  /** Merging the delta equals merging everything exactly when the receiver already has, or beats, every older entry. */
  lemma DeltaSufficesIff(a: Files, b: Files, since: nat)
    ensures Merged(a, DeltaSince(b, since)) == Merged(a, b)
       <==> forall n :: n in b && b[n].timestamp <= since ==> n in a && !DiskStates.Supersedes(b[n], a[n])
  {
    var (l, r) := (Merged(a, DeltaSince(b, since)), Merged(a, b));
    if l == r {
      forall n | n in b && b[n].timestamp <= since
        ensures n in a && !DiskStates.Supersedes(b[n], a[n])
      {
        assert n in l;
        assert l[n] == a[n];
      }
    }
    if forall n :: n in b && b[n].timestamp <= since ==> n in a && !DiskStates.Supersedes(b[n], a[n]) {
      assert l.Keys == r.Keys;
      assert forall n :: n in l ==> l[n] == r[n];
    }
  }

  // ---------- runs of replicas ----------

  datatype Operation =
    | Insert(replica: nat, entry: FileEntry)
    | MergeFrom(replica: nat, source: nat)
    | MergeDelta(replica: nat, source: nat, since: nat)

  /** The replicas' sets, and what each has heard of: all entries inserted at it or at what it merged, before that. */
  datatype System = System(files: seq<Files>, history: seq<set<FileEntry>>)

  function Start(replicas: nat): System {
    System(seq(replicas, _ => map[]), seq(replicas, _ => {}))
  }

  predicate Shaped(s: System) {
    |s.files| == |s.history|
  }

  predicate Possible(s: System, op: Operation) {
    op.replica < |s.files| && (!op.Insert? ==> op.source < |s.files|)
  }

  /** An operation on replicas that do not exist changes nothing. */
  function Step(s: System, op: Operation): (r: System)
    requires Shaped(s)
    ensures Shaped(r) && |r.files| == |s.files|
  {
    if !Possible(s, op) then s
    else
      var i := op.replica;
      match op
      case Insert(_, e) => System(s.files[i := Inserted(s.files[i], e)], s.history[i := s.history[i] + {e}])
      case MergeFrom(_, j) =>
        System(s.files[i := Merged(s.files[i], s.files[j])], s.history[i := s.history[i] + s.history[j]])
      case MergeDelta(_, j, since) =>
        var delta := DeltaSince(s.files[j], since);
        System(s.files[i := Merged(s.files[i], delta)], s.history[i := s.history[i] + delta.Values])
  }

  function Run(s: System, ops: seq<Operation>): (r: System)
    requires Shaped(s)
    ensures Shaped(r) && |r.files| == |s.files|
  {
    if ops == [] then s else Step(Run(s, ops[..|ops| - 1]), ops[|ops| - 1])
  }

  /** The set holds, per name, an entry of the history that no other supersedes, for exactly the names in it. */
  ghost predicate NewestOf(files: Files, history: set<FileEntry>) {
    && (forall n :: n in files ==> files[n] in history && files[n].name == n)
    && (forall e :: e in history ==> e.name in files && !DiskStates.Supersedes(e, files[e.name]))
  }

  ghost predicate AllNewest(s: System) {
    Shaped(s) && forall i :: 0 <= i < |s.files| ==> NewestOf(s.files[i], s.history[i])
  }

  lemma InsertKeepsNewest(files: Files, history: set<FileEntry>, e: FileEntry)
    requires NewestOf(files, history)
    ensures NewestOf(Inserted(files, e), history + {e})
  {
  }

  lemma MergeKeepsNewest(a: Files, ha: set<FileEntry>, b: Files, hb: set<FileEntry>)
    requires NewestOf(a, ha) && NewestOf(b, hb)
    ensures NewestOf(Merged(a, b), ha + hb)
  {
    var m := Merged(a, b);
    forall e | e in ha + hb
      ensures e.name in m && !DiskStates.Supersedes(e, m[e.name])
    {
      assert e in ha ==> e.name in a && !DiskStates.Supersedes(e, a[e.name]);
      assert e in hb ==> e.name in b && !DiskStates.Supersedes(e, b[e.name]);
    }
  }

  lemma DeltaIsNewest(b: Files, hb: set<FileEntry>, since: nat)
    requires NewestOf(b, hb)
    ensures NewestOf(DeltaSince(b, since), DeltaSince(b, since).Values)
  {
    var delta := DeltaSince(b, since);
    forall e | e in delta.Values
      ensures e.name in delta && !DiskStates.Supersedes(e, delta[e.name])
    {
      var n :| n in delta && delta[n] == e;
      assert b[n].name == n;
    }
  }

  lemma StepKeepsNewest(s: System, op: Operation)
    requires AllNewest(s)
    ensures AllNewest(Step(s, op))
  {
    if Possible(s, op) {
      var i := op.replica;
      assert NewestOf(s.files[i], s.history[i]);
      hide NewestOf, Inserted, Merged, DeltaSince;
      match op
      case Insert(_, e) => InsertKeepsNewest(s.files[i], s.history[i], e);
      case MergeFrom(_, j) => MergeKeepsNewest(s.files[i], s.history[i], s.files[j], s.history[j]);
      case MergeDelta(_, j, since) =>
        DeltaIsNewest(s.files[j], s.history[j], since);
        var delta := DeltaSince(s.files[j], since);
        MergeKeepsNewest(s.files[i], s.history[i], delta, delta.Values);
    }
  }

  /** After any run, every replica holds the newest entry of its history for every name. */
  lemma {:induction false} RunKeepsNewest(replicas: nat, ops: seq<Operation>)
    ensures AllNewest(Run(Start(replicas), ops))
  {
    if ops != [] {
      RunKeepsNewest(replicas, ops[..|ops| - 1]);
      StepKeepsNewest(Run(Start(replicas), ops[..|ops| - 1]), ops[|ops| - 1]);
    }
  }

  // ---------- convergence ----------

  ghost predicate SameStamps(a: Files, b: Files) {
    a.Keys == b.Keys && forall n :: n in a ==> SameStamp(a[n], b[n])
  }

  lemma NewestAgree(a: Files, b: Files, history: set<FileEntry>)
    requires NewestOf(a, history) && NewestOf(b, history)
    ensures SameStamps(a, b)
  {
    forall n
      ensures n in a <==> n in b
    {
      assert n in a ==> a[n] in history && a[n].name == n;
      assert n in b ==> b[n] in history && b[n].name == n;
    }
    forall n | n in a && n in b
      ensures SameStamp(a[n], b[n])
    {
      assert a[n] in history && b[n] in history;
      assert !DiskStates.Supersedes(a[n], b[a[n].name]) && !DiskStates.Supersedes(b[n], a[b[n].name]);
    }
  }

  function HashAt(files: Files): string -> nat {
    (n: string) => if n in files then files[n].entryHash else 0
  }

  lemma NoNames(f: string -> nat)
    ensures Map(f, []) == [] && NoDup<string>([]) && Elements<string>([]) == {}
  {
  }

  lemma NamesSnoc(listing: seq<string>, n: string)
    ensures Elements(listing + [n]) == Elements(listing) + {n}
    ensures NoDup(listing) && n !in Elements(listing) ==> NoDup(listing + [n])
  {
  }

  function ByValue(): (nat, nat) -> bool {
    (a: nat, b: nat) => a <= b
  }

  const NO_ENTRIES: nat := 0

  function RootOf(h: seq<nat> -> nat, hashes: seq<nat>): nat {
    if hashes == [] then NO_ENTRIES else h(Sort(hashes, ByValue()))
  }

  ghost predicate Lists(files: Files, listing: seq<string>) {
    NoDup(listing) && Elements(listing) == files.Keys
  }

  ghost predicate IsRoot(h: seq<nat> -> nat, files: Files, root: nat) {
    exists listing :: Lists(files, listing) && root == RootOf(h, Map(HashAt(files), listing))
  }

  lemma SameNames(a: Files, s: seq<string>, b: Files, t: seq<string>)
    requires Lists(a, s) && Lists(b, t) && a.Keys == b.Keys
    ensures multiset(s) == multiset(t)
  {
    NoDupCardinality(s);
    NoDupCardinality(t);
    forall n: string
      ensures n in s <==> n in t
    {
      assert n in s <==> n in Elements(s);
      assert n in t <==> n in Elements(t);
    }
    Rearranges(s, t);
  }

  /** Registries with the same stamps have the same root, whatever order the hashes were collected in. */
  lemma RootsAgree(h: seq<nat> -> nat, a: Files, b: Files, ra: nat, rb: nat)
    requires SameStamps(a, b) && IsRoot(h, a, ra) && IsRoot(h, b, rb)
    ensures ra == rb
  {
    var s :| Lists(a, s) && ra == RootOf(h, Map(HashAt(a), s));
    var t :| Lists(b, t) && rb == RootOf(h, Map(HashAt(b), t));
    SameNames(a, s, b, t);
    MapRearrangement(HashAt(a), s, t);
    assert forall n :: n in t ==> n in Elements(t);
    MapAgree(HashAt(a), HashAt(b), t);
    NumbersOrdered();
    hide Map;
    assert |multiset(Map(HashAt(a), s))| == |Map(HashAt(a), s)|;
    assert |multiset(Map(HashAt(b), t))| == |Map(HashAt(b), t)|;
    SortCanonical(Map(HashAt(a), s), Map(HashAt(b), t), ByValue());
  }

  /** The root of a registry that is not empty is the hash of its entries' hashes in rising order. */
  lemma RootIsOfRising(h: seq<nat> -> nat, files: Files, root: nat) returns (hashes: seq<nat>, names: seq<string>)
    requires IsRoot(h, files, root) && files != map[]
    ensures root == h(hashes) && forall i, j :: 0 <= i < j < |hashes| ==> hashes[i] <= hashes[j]
    ensures NoDup(names) && Elements(names) == files.Keys && multiset(hashes) == multiset(Map(HashAt(files), names))
  {
    names :| Lists(files, names) && root == RootOf(h, Map(HashAt(files), names));
    var unsorted := Map(HashAt(files), names);
    hashes := Sort(unsorted, ByValue());
    NumbersOrdered();
    SortSorted(unsorted, ByValue());
    SortRearranges(unsorted, ByValue());
    var n :| n in files;
    assert n in Elements(names);
    forall i, j | 0 <= i < j < |hashes|
      ensures hashes[i] <= hashes[j]
    {
      assert ByValue()(hashes[i], hashes[j]);
    }
  }

  /** With a hash that does not collide on the two sorted lists, equal roots mean equal bags of entry hashes. */
  lemma RootBindsHashes(h: seq<nat> -> nat, a: seq<nat>, b: seq<nat>)
    requires h(Sort(a, ByValue())) == h(Sort(b, ByValue())) ==> Sort(a, ByValue()) == Sort(b, ByValue())
    requires a != [] ==> h(Sort(a, ByValue())) != NO_ENTRIES
    requires b != [] ==> h(Sort(b, ByValue())) != NO_ENTRIES
    ensures RootOf(h, a) == RootOf(h, b) <==> multiset(a) == multiset(b)
  {
    NumbersOrdered();
    SortRearranges(a, ByValue());
    SortRearranges(b, ByValue());
    assert |multiset(a)| == |a| && |multiset(b)| == |b|;
    if multiset(a) == multiset(b) {
      SortCanonical(a, b, ByValue());
    }
  }

  lemma NumbersOrdered()
    ensures TotalOrder(ByValue())
  {
  }

  /** Replicas of any two runs that have heard of the same entries agree on every winner and on the root. */
  lemma Convergence(h: seq<nat> -> nat, m: nat, ops: seq<Operation>, i: nat, m': nat, ops': seq<Operation>, j: nat, ri: nat, rj: nat)
    requires i < m && j < m'
    requires Run(Start(m), ops).history[i] == Run(Start(m'), ops').history[j]
    requires IsRoot(h, Run(Start(m), ops).files[i], ri) && IsRoot(h, Run(Start(m'), ops').files[j], rj)
    ensures SameStamps(Run(Start(m), ops).files[i], Run(Start(m'), ops').files[j])
    ensures ri == rj
  {
    RunKeepsNewest(m, ops);
    RunKeepsNewest(m', ops');
    var (a, b) := (Run(Start(m), ops), Run(Start(m'), ops'));
    hide NewestOf, SameStamps, IsRoot, Run;
    NewestAgree(a.files[i], b.files[j], a.history[i]);
    RootsAgree(h, a.files[i], b.files[j], ri, rj);
  }

  /** After any run each replica holds, per name it has heard of, an entry with the latest timestamp heard of for that name,
      and among those with the largest hash. */
  lemma LatestIsKept(replicas: nat, ops: seq<Operation>, i: nat, e: FileEntry)
    requires i < replicas && |Run(Start(replicas), ops).files| == replicas && |Run(Start(replicas), ops).history| == replicas
    requires e in Run(Start(replicas), ops).history[i]
    ensures
      var files := Run(Start(replicas), ops).files[i];
      && e.name in files && files[e.name] in Run(Start(replicas), ops).history[i] && files[e.name].name == e.name
      && e.timestamp <= files[e.name].timestamp
      && (e.timestamp == files[e.name].timestamp ==> e.entryHash <= files[e.name].entryHash)
  {
    RunKeepsNewest(replicas, ops);
    hide Run;
    assert NewestOf(Run(Start(replicas), ops).files[i], Run(Start(replicas), ops).history[i]);
  }
}
