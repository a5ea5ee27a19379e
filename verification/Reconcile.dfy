/** Conflict detection and resolution (src/conflict.rs, src/fork.rs:67-109, src/reconcile.rs:31-92): an index that only
    grows, a winner per conflict, and the same winners however and whenever the signals arrive. A 32-byte id stands as
    its big-endian number, so that the order of ids is the order of numbers. */
module Reconcile {
  import opened Sequences

  type Id = nat

  datatype Cyberlink = Cyberlink(neuron: Id, from: Id, to: Id, token: Id, amount: nat, valence: int, height: nat)

  datatype Signal = Signal(neuron: Id, network: Id, links: seq<Cyberlink>, deltaPi: seq<(Id, nat)>, prev: Id, step: nat, height: nat)

  /** The content id of a signal and the conflict keys it claims; today one key, from neuron and step. */
  datatype Scheme = Scheme(contentId: Signal -> Id, keys: Signal -> seq<Id>)

  datatype Resolved = Resolved(key: Id, winner: Id)

  datatype ForkError = ConflictUnderSerialize | Empty

  datatype Result<T> = Ok(value: T) | Err(error: ForkError)

  datatype Strategy = MinHash | Serialize

  type Group = map<Id, Signal>
  type Groups = map<Id, Group>

  // ---------- ids in order ----------

  function Least(s: set<Id>): (m: Id)
    requires s != {}
    ensures m in s && forall x :: x in s ==> m <= x
  {
    LeastExists(s);
    var m: Id :| m in s && forall x :: x in s ==> m <= x;
    m
  }

  lemma {:induction false} LeastExists(s: set<Id>)
    requires s != {}
    ensures exists m: Id :: m in s && forall x :: x in s ==> m <= x
  {
    var a :| a in s;
    var rest := s - {a};
    if rest == {} {
      assert s == {a};
    } else {
      LeastExists(rest);
      var b: Id :| b in rest && forall x :: x in rest ==> b <= x;
      assert forall x :: x in s ==> x == a || x in rest;
      if a <= b {
        assert forall x :: x in s ==> a <= x;
      } else {
        assert forall x :: x in s ==> b <= x;
      }
    }
  }

  /** The order in which a B-tree yields its keys. */
  function Ascending(s: set<Id>): (r: seq<Id>)
    ensures |r| == |s| && forall x :: x in r <==> x in s
    ensures forall i, j :: 0 <= i < j < |r| ==> r[i] < r[j]
  {
    if s == {} then []
    else
      var m := Least(s);
      [m] + Ascending(s - {m})
  }

  // ---------- what has been observed ----------

  /** The content ids of the signals that claimed a key. */
  function Claims(sc: Scheme, observed: seq<Signal>, key: Id): set<Id> {
    set s | s in observed && key in sc.keys(s) :: sc.contentId(s)
  }

  function ClaimedKeys(sc: Scheme, observed: seq<Signal>): set<Id> {
    set s, k | s in observed && k in sc.keys(s) :: k
  }

  predicate InConflict(sc: Scheme, observed: seq<Signal>, key: Id) {
    |Claims(sc, observed, key)| > 1
  }

  /** The groups hold exactly the ids claimed under each key, each with a signal of that id. */
  ghost predicate Indexes(sc: Scheme, groups: Groups, observed: seq<Signal>) {
    && groups.Keys == ClaimedKeys(sc, observed)
    && (forall k :: k in groups ==> groups[k].Keys == Claims(sc, observed, k))
    && (forall k, id :: k in groups && id in groups[k] ==>
          sc.contentId(groups[k][id]) == id && groups[k][id] in observed)
  }

  /** The keys among ks that are in conflict, as often as they are listed. */
  function Conflicting(sc: Scheme, observed: seq<Signal>, ks: seq<Id>): seq<Id> {
    if ks == [] then []
    else Conflicting(sc, observed, ks[..|ks| - 1])
         + if InConflict(sc, observed, ks[|ks| - 1]) then [ks[|ks| - 1]] else []
  }

  lemma ClaimsSnoc(sc: Scheme, observed: seq<Signal>, sig: Signal, k: Id)
    ensures Claims(sc, observed + [sig], k)
         == Claims(sc, observed, k) + if k in sc.keys(sig) then {sc.contentId(sig)} else {}
    ensures ClaimedKeys(sc, observed + [sig]) == ClaimedKeys(sc, observed) + Elements(sc.keys(sig))
  {
    var (l, r) := (Claims(sc, observed + [sig], k), Claims(sc, observed, k) + if k in sc.keys(sig) then {sc.contentId(sig)} else {});
    forall id
      ensures id in l <==> id in r
    {
      if id in l {
        var s :| s in observed + [sig] && k in sc.keys(s) && sc.contentId(s) == id;
      }
      if id in Claims(sc, observed, k) {
        var s :| s in observed && k in sc.keys(s) && sc.contentId(s) == id;
        assert s in observed + [sig];
      }
      assert sig in observed + [sig];
    }
    var (lk, rk) := (ClaimedKeys(sc, observed + [sig]), ClaimedKeys(sc, observed) + Elements(sc.keys(sig)));
    forall key
      ensures key in lk <==> key in rk
    {
      if key in ClaimedKeys(sc, observed) {
        var s :| s in observed && key in sc.keys(s);
        assert s in observed + [sig];
      }
      assert sig in observed + [sig];
    }
  }

  lemma UnclaimedIsEmpty(sc: Scheme, observed: seq<Signal>, k: Id)
    ensures k !in ClaimedKeys(sc, observed) ==> Claims(sc, observed, k) == {}
  {
  }

  function GroupAt(groups: Groups, k: Id): Group {
    if k in groups then groups[k] else map[]
  }

  class ConflictIndex {
    const scheme: Scheme
    var groups: Groups
    ghost var observed: seq<Signal>

    ghost predicate Valid()
      reads this
    {
      Indexes(scheme, groups, observed)
    }

    constructor (scheme: Scheme)
      ensures this.scheme == scheme && Valid() && observed == []
    {
      this.scheme := scheme;
      groups := map[];
      observed := [];
    }

    /** Files the signal under each of its keys; the result names the keys now in conflict. */
    method Observe(sig: Signal) returns (newly: seq<Id>)
      requires Valid()
      modifies this
      ensures Valid() && observed == old(observed) + [sig]
      ensures newly == Conflicting(scheme, observed, scheme.keys(sig))
    {
      hide Claims, ClaimedKeys, Indexes, Filed, InConflict, GroupAt;
      var id, ks := scheme.contentId(sig), scheme.keys(sig);
      ghost var before, all := groups, observed + [sig];
      newly := [];
      var i := 0;
      FiledNone(groups, id, sig);
      assert ks[..0] == [];
      while i < |ks|
        invariant 0 <= i <= |ks| && observed == old(observed)
        invariant Filed(before, groups, ks[..i], id, sig)
        invariant newly == Conflicting(scheme, all, ks[..i])
      {
        var key := ks[i];
        assert ks[..i + 1] == ks[..i] + [key];
        FiledOnce(before, groups, ks[..i], key, id, sig);
        groups := groups[key := GroupAt(groups, key)[id := sig]];
        FiledSize(scheme, before, observed, sig, key);
        assert InConflict(scheme, all, key) <==> |groups[key]| > 1;
        if |groups[key]| > 1 {
          newly := newly + [key];
        }
        assert ks[..i + 1][..i] == ks[..i];
        i := i + 1;
      }
      assert ks[..i] == ks;
      FiledIndexes(scheme, before, groups, observed, sig);
      observed := all;
    }
  }

  /** The groups after the signal was inserted under the keys ks. */
  ghost predicate Filed(before: Groups, after: Groups, ks: seq<Id>, id: Id, sig: Signal) {
    && (forall k :: k in after <==> k in before || k in ks)
    && (forall k :: k in after ==> after[k] == if k in ks then GroupAt(before, k)[id := sig] else before[k])
  }

  lemma FiledNone(groups: Groups, id: Id, sig: Signal)
    ensures Filed(groups, groups, [], id, sig)
  {
  }

  lemma FiledOnce(before: Groups, groups: Groups, ks: seq<Id>, key: Id, id: Id, sig: Signal)
    requires Filed(before, groups, ks, id, sig)
    ensures var g := GroupAt(groups, key)[id := sig];
            g == GroupAt(before, key)[id := sig] && Filed(before, groups[key := g], ks + [key], id, sig)
  {
    assert GroupAt(groups, key)[id := sig] == GroupAt(before, key)[id := sig];
    assert forall k :: k in ks + [key] <==> k in ks || k == key;
  }

  lemma FiledSize(sc: Scheme, before: Groups, observed: seq<Signal>, sig: Signal, key: Id)
    requires Indexes(sc, before, observed) && key in sc.keys(sig)
    ensures InConflict(sc, observed + [sig], key) <==> |GroupAt(before, key)[sc.contentId(sig) := sig]| > 1
  {
    hide Claims, ClaimedKeys;
    ClaimsSnoc(sc, observed, sig, key);
    UnclaimedIsEmpty(sc, observed, key);
    var g := GroupAt(before, key)[sc.contentId(sig) := sig];
    assert g.Keys == Claims(sc, observed + [sig], key);
    assert |g| == |g.Keys|;
  }

  lemma FiledIndexes(sc: Scheme, before: Groups, after: Groups, observed: seq<Signal>, sig: Signal)
    requires Indexes(sc, before, observed) && Filed(before, after, sc.keys(sig), sc.contentId(sig), sig)
    ensures Indexes(sc, after, observed + [sig])
  {
    hide Claims, ClaimedKeys;
    var all := observed + [sig];
    ClaimsSnoc(sc, observed, sig, 0);
    assert after.Keys == ClaimedKeys(sc, all);
    forall k | k in after
      ensures after[k].Keys == Claims(sc, all, k)
    {
      ClaimsSnoc(sc, observed, sig, k);
      UnclaimedIsEmpty(sc, observed, k);
    }
    forall k, id | k in after && id in after[k]
      ensures sc.contentId(after[k][id]) == id && after[k][id] in all
    {
    }
  }

  // ---------- picking a winner ----------

  function Members(group: Group, ids: seq<Id>): (r: seq<Signal>)
    requires forall id :: id in ids ==> id in group
    ensures |r| == |ids| && forall i :: 0 <= i < |ids| ==> r[i] == group[ids[i]]
  {
    seq(|ids|, i requires 0 <= i < |ids| => group[ids[i]])
  }

  /** The first member of least content id. */
  method ResolveMinHash(sc: Scheme, members: seq<Signal>) returns (r: Result<nat>)
    ensures members == [] <==> r == Err(Empty)
    ensures members != [] ==> r.Ok? && r.value < |members|
    ensures r.Ok? ==> forall j :: 0 <= j < |members| ==> sc.contentId(members[r.value]) <= sc.contentId(members[j])
    ensures r.Ok? ==> forall j :: 0 <= j < r.value ==> sc.contentId(members[r.value]) < sc.contentId(members[j])
  {
    if members == [] {
      return Err(Empty);
    }
    var best: nat, bestId := 0, sc.contentId(members[0]);
    var i := 1;
    while i < |members|
      invariant 1 <= i <= |members| && best < i && bestId == sc.contentId(members[best])
      invariant forall j :: 0 <= j < i ==> bestId <= sc.contentId(members[j])
      invariant forall j :: 0 <= j < best ==> bestId < sc.contentId(members[j])
    {
      var id := sc.contentId(members[i]);
      if id < bestId {
        best, bestId := i, id;
      }
      i := i + 1;
    }
    return Ok(best);
  }

  method Resolve(strategy: Strategy, sc: Scheme, members: seq<Signal>) returns (r: Result<nat>)
    ensures r.Ok? ==> r.value < |members|
    ensures r.Ok? ==> forall j :: 0 <= j < |members| ==> sc.contentId(members[r.value]) <= sc.contentId(members[j])
    ensures r == Err(Empty) <==> members == []
    ensures r == Err(ConflictUnderSerialize) <==> strategy.Serialize? && |members| > 1
  {
    match strategy
    case MinHash => r := ResolveMinHash(sc, members);
    case Serialize =>
      if |members| == 0 {
        r := Err(Empty);
      } else if |members| == 1 {
        r := Ok(0);
      } else {
        r := Err(ConflictUnderSerialize);
      }
  }

  /** The winner of a claimed key: the least of the ids that claimed it. */
  function Winner(sc: Scheme, observed: seq<Signal>, key: Id): Resolved
    requires Claims(sc, observed, key) != {}
  {
    Resolved(key, Least(Claims(sc, observed, key)))
  }

  /** The winners of the listed keys that are in conflict. */
  function Winners(sc: Scheme, observed: seq<Signal>, ks: seq<Id>): seq<Resolved> {
    if ks == [] then []
    else
      Winners(sc, observed, ks[..|ks| - 1])
      + if InConflict(sc, observed, ks[|ks| - 1]) then [Winner(sc, observed, ks[|ks| - 1])] else []
  }

  lemma {:induction false} WinnersOfConflicting(sc: Scheme, observed: seq<Signal>, ks: seq<Id>)
    ensures Winners(sc, observed, Conflicting(sc, observed, ks)) == Winners(sc, observed, ks)
    ensures forall k :: k in Conflicting(sc, observed, ks) <==> k in ks && InConflict(sc, observed, k)
  {
    if ks != [] {
      var rest, k := ks[..|ks| - 1], ks[|ks| - 1];
      WinnersOfConflicting(sc, observed, rest);
      var c := Conflicting(sc, observed, rest);
      assert ks == rest + [k];
      if InConflict(sc, observed, k) {
        assert (c + [k])[..|c + [k]| - 1] == c;
        assert Winners(sc, observed, c + [k]) == Winners(sc, observed, c) + [Winner(sc, observed, k)];
      } else {
        assert Conflicting(sc, observed, ks) == c;
        assert Winners(sc, observed, ks) == Winners(sc, observed, rest);
      }
    }
  }

  class Reconciler {
    const index: ConflictIndex
    const fork: Strategy

    constructor (scheme: Scheme, fork: Strategy)
      ensures fresh(index) && index.Valid() && index.observed == [] && index.scheme == scheme && this.fork == fork
    {
      this.fork := fork;
      index := new ConflictIndex(scheme);
    }

    method ResolveKey(key: Id) returns (r: Result<Resolved>)
      requires index.Valid()
      ensures key !in ClaimedKeys(index.scheme, index.observed) ==> r == Err(Empty)
      ensures key in ClaimedKeys(index.scheme, index.observed) ==> Claims(index.scheme, index.observed, key) != {}
      ensures key in ClaimedKeys(index.scheme, index.observed) ==>
        r == if fork.Serialize? && InConflict(index.scheme, index.observed, key) then Err(ConflictUnderSerialize)
             else Ok(Winner(index.scheme, index.observed, key))
    {
      hide Claims, ClaimedKeys, Ascending, Least;
      if key !in index.groups {
        return Err(Empty);
      }
      var group := index.groups[key];
      GroupIsClaims(index, key);
      hide Indexes;
      var members := Members(group, Ascending(group.Keys));
      var best := Resolve(fork, index.scheme, members);
      assert |members| == |Claims(index.scheme, index.observed, key)| > 0;
      if best.Err? {
        assert best.error.Empty? ==> best == Err(Empty);
        assert best == Err(ConflictUnderSerialize);
        return Err(best.error);
      }
      LeastMember(index.scheme, group, best.value);
      return Ok(Resolved(key, index.scheme.contentId(members[best.value])));
    }

    /** Resolves the listed keys one after the other, stopping at the first error. */
    method ResolveKeys(ks: seq<Id>) returns (r: Result<seq<Resolved>>)
      requires index.Valid() && forall k :: k in ks ==> InConflict(index.scheme, index.observed, k)
      ensures fork.MinHash? ==> r == Ok(Winners(index.scheme, index.observed, ks))
      ensures fork.Serialize? ==> r == if ks == [] then Ok([]) else Err(ConflictUnderSerialize)
    {
      hide Claims, ClaimedKeys, Indexes, InConflict;
      var out, i := [], 0;
      while i < |ks|
        invariant 0 <= i <= |ks| && (i > 0 ==> fork.MinHash?)
        invariant out == Winners(index.scheme, index.observed, ks[..i])
      {
        assert ks[..i + 1][..i] == ks[..i];
        assert InConflict(index.scheme, index.observed, ks[i]);
        ConflictIsClaimed(index.scheme, index.observed, ks[i]);
        var one := ResolveKey(ks[i]);
        if one.Err? {
          return Err(one.error);
        }
        out := out + [one.value];
        i := i + 1;
      }
      assert ks[..i] == ks;
      return Ok(out);
    }

    /** Incremental: index one signal and resolve what it put into conflict. */
    method Observe(sig: Signal) returns (r: Result<seq<Resolved>>)
      requires index.Valid()
      modifies index
      ensures index.Valid() && index.observed == old(index.observed) + [sig]
      ensures fork.MinHash? ==> r == Ok(Winners(index.scheme, index.observed, index.scheme.keys(sig)))
      ensures fork.Serialize? ==>
        (r == Ok([]) <==> forall k :: k in index.scheme.keys(sig) ==> !InConflict(index.scheme, index.observed, k))
      ensures fork.Serialize? && r != Ok([]) ==> r == Err(ConflictUnderSerialize)
    {
      hide Claims, ClaimedKeys, Indexes, InConflict, Winners, Conflicting;
      var newly := index.Observe(sig);
      WinnersOfConflicting(index.scheme, index.observed, index.scheme.keys(sig));
      r := ResolveKeys(newly);
      assert newly == [] || newly[0] in newly;
    }

    /** Batch: resolve every key in conflict, in key order. */
    method ResolveAll() returns (r: Result<seq<Resolved>>)
      requires index.Valid()
      ensures fork.MinHash? ==> r == Ok(Batch(index.scheme, index.observed))
      ensures fork.Serialize? ==> r == if ConflictKeys(index.scheme, index.observed) == {} then Ok([]) else Err(ConflictUnderSerialize)
    {
      hide Winners, Claims, ClaimedKeys, Indexes, InConflict;
      hide Ascending, Batch, ConflictKeys;
      var keys := set k | k in index.groups && |index.groups[k]| > 1;
      ConflictKeysFound(index, keys);
      r := ResolveKeys(Ascending(keys));
    }
  }

  lemma ClaimedIsNonempty(sc: Scheme, observed: seq<Signal>, key: Id)
    requires key in ClaimedKeys(sc, observed)
    ensures Claims(sc, observed, key) != {}
  {
    var s :| s in observed && key in sc.keys(s);
    assert sc.contentId(s) in Claims(sc, observed, key);
  }

  lemma GroupIsClaims(index: ConflictIndex, key: Id)
    requires index.Valid() && key in index.groups
    ensures var group := index.groups[key];
            && key in ClaimedKeys(index.scheme, index.observed)
            && group.Keys == Claims(index.scheme, index.observed, key) != {}
            && |group| == |group.Keys| > 0
            && forall id :: id in group ==> index.scheme.contentId(group[id]) == id
  {
    hide Claims;
    ClaimedIsNonempty(index.scheme, index.observed, key);
    assert |index.groups[key]| == |index.groups[key].Keys|;
  }

  lemma ConflictIsClaimed(sc: Scheme, observed: seq<Signal>, key: Id)
    requires InConflict(sc, observed, key)
    ensures key in ClaimedKeys(sc, observed)
  {
    var id :| id in Claims(sc, observed, key);
  }

  lemma LeastMember(sc: Scheme, group: Group, best: nat)
    requires group.Keys != {} && best < |group|
    requires forall id :: id in group ==> sc.contentId(group[id]) == id
    requires |group| == |group.Keys|
    requires forall j :: 0 <= j < |group| ==>
      sc.contentId(Members(group, Ascending(group.Keys))[best]) <= sc.contentId(Members(group, Ascending(group.Keys))[j])
    ensures sc.contentId(Members(group, Ascending(group.Keys))[best]) == Least(group.Keys)
  {
    var ids := Ascending(group.Keys);
    var m := Least(group.Keys);
    assert m in ids;
    var j :| 0 <= j < |ids| && ids[j] == m;
    assert ids[best] in group.Keys;
    assert sc.contentId(Members(group, ids)[j]) == m;
    assert sc.contentId(Members(group, ids)[best]) == ids[best];
  }

  function ConflictKeys(sc: Scheme, observed: seq<Signal>): set<Id> {
    set k | k in ClaimedKeys(sc, observed) && InConflict(sc, observed, k)
  }

  function Batch(sc: Scheme, observed: seq<Signal>): seq<Resolved> {
    Winners(sc, observed, Ascending(ConflictKeys(sc, observed)))
  }

  lemma ConflictKeysFound(index: ConflictIndex, keys: set<Id>)
    requires index.Valid() && keys == set k | k in index.groups && |index.groups[k]| > 1
    ensures keys == ConflictKeys(index.scheme, index.observed)
    ensures Winners(index.scheme, index.observed, Ascending(keys)) == Batch(index.scheme, index.observed)
    ensures forall k :: k in Ascending(keys) ==> InConflict(index.scheme, index.observed, k)
    ensures keys == {} <==> Ascending(keys) == []
  {
    hide Claims, ClaimedKeys, Winners, Ascending;
    forall k | k in index.groups
      ensures |index.groups[k]| == |Claims(index.scheme, index.observed, k)|
    {
      assert |index.groups[k]| == |index.groups[k].Keys|;
    }
  }

  // ---------- independence of order, repetition and timing ----------

  ghost predicate SameSignals(a: seq<Signal>, b: seq<Signal>) {
    forall s :: s in a <==> s in b
  }

  /** Members and winners depend only on which signals were observed. */
  lemma OrderAndRepetitionDoNotMatter(sc: Scheme, a: seq<Signal>, b: seq<Signal>, k: Id)
    requires SameSignals(a, b)
    ensures Claims(sc, a, k) == Claims(sc, b, k) && ClaimedKeys(sc, a) == ClaimedKeys(sc, b)
    ensures Batch(sc, a) == Batch(sc, b)
  {
    SameClaims(sc, a, b, k);
    forall key
      ensures Claims(sc, a, key) == Claims(sc, b, key)
    {
      SameClaims(sc, a, b, key);
    }
    hide Claims, ClaimedKeys;
    assert ConflictKeys(sc, a) == ConflictKeys(sc, b);
    SameWinners(sc, a, b, Ascending(ConflictKeys(sc, a)));
  }

  lemma SameClaims(sc: Scheme, a: seq<Signal>, b: seq<Signal>, k: Id)
    requires SameSignals(a, b)
    ensures Claims(sc, a, k) == Claims(sc, b, k) && ClaimedKeys(sc, a) == ClaimedKeys(sc, b)
  {
  }

  lemma {:induction false} SameWinners(sc: Scheme, a: seq<Signal>, b: seq<Signal>, ks: seq<Id>)
    requires forall k :: Claims(sc, a, k) == Claims(sc, b, k)
    ensures Winners(sc, a, ks) == Winners(sc, b, ks)
  {
    hide Claims;
    if ks != [] {
      SameWinners(sc, a, b, ks[..|ks| - 1]);
    }
  }

  /** Groups never shrink, so a conflict stays one; a winner is only ever replaced by a lower id. */
  lemma GroupsGrow(sc: Scheme, a: seq<Signal>, more: seq<Signal>, k: Id)
    ensures Claims(sc, a, k) <= Claims(sc, a + more, k)
    ensures InConflict(sc, a, k) ==> InConflict(sc, a + more, k)
    ensures InConflict(sc, a, k) ==> Winner(sc, a + more, k).winner <= Winner(sc, a, k).winner
  {
    var (before, after) := (Claims(sc, a, k), Claims(sc, a + more, k));
    forall id | id in before
      ensures id in after
    {
      var s :| s in a && k in sc.keys(s) && sc.contentId(s) == id;
      assert s in a + more;
    }
    SubsetSize(before, after);
    if InConflict(sc, a, k) {
      assert Least(before) in after;
    }
  }

  /** Everything the incremental path reported while the signals came in. */
  function Log(sc: Scheme, observed: seq<Signal>): seq<Resolved> {
    if observed == [] then []
    else Log(sc, observed[..|observed| - 1]) + Winners(sc, observed, sc.keys(observed[|observed| - 1]))
  }

  /** The last report on a key. */
  function LastReport(log: seq<Resolved>, key: Id): set<Resolved> {
    if log == [] then {}
    else if log[|log| - 1].key == key then {log[|log| - 1]}
    else LastReport(log[..|log| - 1], key)
  }

  lemma {:induction false} LastReportAppend(a: seq<Resolved>, b: seq<Resolved>, key: Id)
    ensures LastReport(a + b, key) == if LastReport(b, key) != {} then LastReport(b, key) else LastReport(a, key)
  {
    if b == [] {
      assert a + b == a;
    } else {
      assert (a + b)[..|a + b| - 1] == a + b[..|b| - 1];
      LastReportAppend(a, b[..|b| - 1], key);
    }
  }

  lemma LastReportOne(r: Resolved, key: Id)
    ensures LastReport([r], key) == if r.key == key then {r} else {}
  {
    assert [r][..0] == [];
  }

  /** The reports of one round name each listed conflict with its current winner. */
  lemma {:induction false} LastOfWinners(sc: Scheme, observed: seq<Signal>, ks: seq<Id>, key: Id)
    ensures LastReport(Winners(sc, observed, ks), key)
         == if key in ks && InConflict(sc, observed, key) then {Winner(sc, observed, key)} else {}
  {
    hide Claims;
    if ks != [] {
      var rest, k := ks[..|ks| - 1], ks[|ks| - 1];
      LastOfWinners(sc, observed, rest, key);
      assert ks == rest + [k];
      var w := Winners(sc, observed, rest);
      if InConflict(sc, observed, k) {
        LastReportAppend(w, [Winner(sc, observed, k)], key);
        LastReportOne(Winner(sc, observed, k), key);
      } else {
        assert Winners(sc, observed, ks) == w;
      }
    }
  }

  /** The last incremental report on a key is the batch result for it. */
  lemma {:induction false} IncrementalAgreesWithBatch(sc: Scheme, observed: seq<Signal>, key: Id)
    ensures LastReport(Log(sc, observed), key)
         == if InConflict(sc, observed, key) then {Winner(sc, observed, key)} else {}
    ensures LastReport(Log(sc, observed), key) == LastReport(Batch(sc, observed), key)
  {
    if observed == [] {
      assert Claims(sc, observed, key) == {};
    } else {
      var rest, sig := observed[..|observed| - 1], observed[|observed| - 1];
      assert observed == rest + [sig];
      IncrementalAgreesWithBatch(sc, rest, key);
      LastReportAppend(Log(sc, rest), Winners(sc, observed, sc.keys(sig)), key);
      LastOfWinners(sc, observed, sc.keys(sig), key);
      ClaimsSnoc(sc, rest, sig, key);
    }
    BatchReports(sc, observed, key);
  }

  lemma BatchReports(sc: Scheme, observed: seq<Signal>, key: Id)
    ensures LastReport(Batch(sc, observed), key)
         == if InConflict(sc, observed, key) then {Winner(sc, observed, key)} else {}
  {
    LastOfWinners(sc, observed, Ascending(ConflictKeys(sc, observed)), key);
    if InConflict(sc, observed, key) {
      ConflictIsClaimed(sc, observed, key);
    }
  }

  predicate Claimed(sc: Scheme, observed: seq<Signal>, key: Id, id: Id) {
    exists s :: s in observed && key in sc.keys(s) && sc.contentId(s) == id
  }

  /** A report on a key stands at the end exactly if signals of two contents claimed the key, and it names the least content. */
  lemma ReportedIff(sc: Scheme, observed: seq<Signal>, key: Id, w: Id)
    ensures Resolved(key, w) in LastReport(Log(sc, observed), key) <==>
            && Claimed(sc, observed, key, w)
            && (forall id :: Claimed(sc, observed, key, id) ==> w <= id)
            && exists id :: Claimed(sc, observed, key, id) && id != w
  {
    IncrementalAgreesWithBatch(sc, observed, key);
    var claims := Claims(sc, observed, key);
    forall id
      ensures Claimed(sc, observed, key, id) <==> id in claims
    {
    }
    hide Claimed, Log, LastReport, Batch;
    if id :| id in claims && id != w && w in claims {
      TwoOf(claims, id, w);
    }
    if |claims| > 1 {
      OneBeside(claims, Least(claims));
    }
  }

  lemma TwoOf(s: set<Id>, a: Id, b: Id)
    requires a in s && b in s && a != b
    ensures |s| > 1
  {
    Subset({a, b}, s);
  }

  lemma OneBeside(s: set<Id>, a: Id)
    requires |s| > 1
    ensures exists b :: b in s && b != a
  {
    if s <= {a} {
      Subset(s, {a});
    }
  }

  lemma Subset(a: set<Id>, b: set<Id>)
    requires a <= b
    ensures |a| <= |b|
  {
    assert b == a + (b - a);
  }

  /** A run of the incremental engine, closed by a batch: the log and the batch of the signals. */
  method ObserveAll(sc: Scheme, sigs: seq<Signal>) returns (log: seq<Resolved>, batch: seq<Resolved>)
    ensures log == Log(sc, sigs) && batch == Batch(sc, sigs)
  {
    hide Winners, Claims, ClaimedKeys, Indexes, Batch;
    var r := new Reconciler(sc, MinHash);
    log := [];
    var i := 0;
    while i < |sigs|
      invariant 0 <= i <= |sigs| && fresh(r.index)
      invariant r.index.Valid() && r.index.observed == sigs[..i] && r.index.scheme == sc && r.fork == MinHash
      invariant log == Log(sc, sigs[..i])
    {
      assert sigs[..i + 1] == sigs[..i] + [sigs[i]] && sigs[..i + 1][..i] == sigs[..i];
      var out := r.Observe(sigs[i]);
      log := log + out.value;
      i := i + 1;
    }
    assert sigs[..i] == sigs;
    var all := r.ResolveAll();
    batch := all.value;
  }

  // ---------- every link once ----------

  /** The signals of the groups in the order they are walked: keys ascending, then ids ascending. */
  function Walk(groups: Groups, ks: seq<Id>): seq<Signal>
    requires forall k :: k in ks ==> k in groups
  {
    if ks == [] then []
    else Walk(groups, ks[..|ks| - 1]) + Members(groups[ks[|ks| - 1]], Ascending(groups[ks[|ks| - 1]].Keys))
  }

  /** The signals whose content id has not come before. */
  function Distinct(sc: Scheme, s: seq<Signal>): seq<Signal> {
    if s == [] then []
    else
      var rest := s[..|s| - 1];
      Distinct(sc, rest) + if sc.contentId(s[|s| - 1]) in ContentIds(sc, rest) then [] else [s[|s| - 1]]
  }

  function ContentIds(sc: Scheme, s: seq<Signal>): set<Id> {
    set x | x in s :: sc.contentId(x)
  }

  function LinksOf(s: seq<Signal>): seq<Cyberlink> {
    if s == [] then [] else LinksOf(s[..|s| - 1]) + s[|s| - 1].links
  }

  lemma LinksOfSnoc(s: seq<Signal>, x: Signal)
    ensures LinksOf(s + [x]) == LinksOf(s) + x.links
  {
    assert (s + [x])[..|s|] == s;
  }

  lemma DistinctSnoc(sc: Scheme, s: seq<Signal>, x: Signal)
    ensures Distinct(sc, s + [x]) == Distinct(sc, s) + if sc.contentId(x) in ContentIds(sc, s) then [] else [x]
    ensures ContentIds(sc, s + [x]) == ContentIds(sc, s) + {sc.contentId(x)}
  {
    assert (s + [x])[..|s|] == s;
    assert x in s + [x];
    assert forall y :: y in s ==> y in s + [x];
  }

  /** The links of one group's signals, skipping ids already seen. */
  method GroupLinks(index: ConflictIndex, key: Id, seen: set<Id>, links: seq<Cyberlink>, ghost before: seq<Signal>)
    returns (seen': set<Id>, links': seq<Cyberlink>)
    requires index.Valid() && key in index.groups
    requires seen == ContentIds(index.scheme, before) && links == LinksOf(Distinct(index.scheme, before))
    ensures var walked := before + Members(index.groups[key], Ascending(index.groups[key].Keys));
            seen' == ContentIds(index.scheme, walked) && links' == LinksOf(Distinct(index.scheme, walked))
  {
    hide Distinct, ContentIds, LinksOf, Indexes;
    var group := index.groups[key];
    var ids := Ascending(group.Keys);
    var members := Members(group, ids);
    seen', links' := seen, links;
    var j := 0;
    assert before + members[..0] == before;
    while j < |members|
      invariant 0 <= j <= |members|
      invariant seen' == ContentIds(index.scheme, before + members[..j])
      invariant links' == LinksOf(Distinct(index.scheme, before + members[..j]))
    {
      var id := ids[j];
      MemberId(index, key, ids, j);
      DistinctSnoc(index.scheme, before + members[..j], members[j]);
      LinksOfSnoc(Distinct(index.scheme, before + members[..j]), members[j]);
      TakeOneMore(before, members, j);
      if id !in seen' {
        seen' := seen' + {id};
        links' := links' + members[j].links;
      } else {
        AlreadyThere(seen', id, Distinct(index.scheme, before + members[..j]));
      }
      j := j + 1;
    }
    assert members[..j] == members;
  }

  method AllLinks(index: ConflictIndex) returns (out: seq<Cyberlink>)
    requires index.Valid()
    ensures out == LinksOf(Distinct(index.scheme, Walk(index.groups, Ascending(index.groups.Keys))))
  {
    hide Distinct, ContentIds, LinksOf, Indexes, Walk, Members, Ascending;
    var seen: set<Id> := {};
    out := [];
    var ks, i := Ascending(index.groups.Keys), 0;
    NothingWalked(index.scheme);
    while i < |ks|
      invariant 0 <= i <= |ks| && (forall k :: k in ks[..i] ==> k in index.groups)
      invariant seen == ContentIds(index.scheme, Walk(index.groups, ks[..i]))
      invariant out == LinksOf(Distinct(index.scheme, Walk(index.groups, ks[..i])))
    {
      assert ks[i] in ks;
      seen, out := GroupLinks(index, ks[i], seen, out, Walk(index.groups, ks[..i]));
      WalkSnoc(index.groups, ks, i);
      i := i + 1;
    }
    assert ks[..i] == ks;
  }

  lemma TakeOneMore(before: seq<Signal>, s: seq<Signal>, j: nat)
    requires j < |s|
    ensures before + s[..j + 1] == before + s[..j] + [s[j]]
  {
  }

  lemma AlreadyThere(s: set<Id>, id: Id, t: seq<Signal>)
    requires id in s
    ensures s + {id} == s && t + [] == t
  {
  }

  lemma NothingWalked(sc: Scheme)
    ensures ContentIds(sc, []) == {} && LinksOf(Distinct(sc, [])) == [] && forall g: Groups :: Walk(g, []) == []
  {
  }

  lemma WalkSnoc(groups: Groups, ks: seq<Id>, i: nat)
    requires i < |ks| && forall k :: k in ks ==> k in groups
    ensures (forall k :: k in ks[..i] ==> k in groups) && (forall k :: k in ks[..i + 1] ==> k in groups)
    ensures Walk(groups, ks[..i + 1]) == Walk(groups, ks[..i]) + Members(groups[ks[i]], Ascending(groups[ks[i]].Keys))
  {
    assert forall k :: k in ks[..i + 1] ==> k in ks;
    assert ks[..i + 1][..i] == ks[..i];
  }

  lemma MemberId(index: ConflictIndex, key: Id, ids: seq<Id>, j: nat)
    requires index.Valid() && key in index.groups && j < |ids| && forall id :: id in ids ==> id in index.groups[key]
    ensures index.scheme.contentId(Members(index.groups[key], ids)[j]) == ids[j]
  {
    assert ids[j] in ids;
  }

  /** Each content id is counted once, and none that claimed a key is missed. */
  lemma {:induction false} DistinctOnce(sc: Scheme, s: seq<Signal>)
    ensures ContentIds(sc, Distinct(sc, s)) == ContentIds(sc, s)
    ensures forall x :: x in Distinct(sc, s) ==> x in s
    ensures IdsDiffer(sc, Distinct(sc, s))
  {
    if s != [] {
      hide Distinct, ContentIds;
      var rest, x := s[..|s| - 1], s[|s| - 1];
      assert s == rest + [x];
      DistinctOnce(sc, rest);
      DistinctSnoc(sc, rest, x);
      DistinctSnoc(sc, Distinct(sc, rest), x);
      var d := Distinct(sc, rest);
      AppendNothing(d);
      if sc.contentId(x) !in ContentIds(sc, rest) {
        OneMoreId(sc, d, x);
      }
    } else {
      NothingDistinct(sc);
    }
  }

  ghost predicate IdsDiffer(sc: Scheme, s: seq<Signal>) {
    forall i, j :: 0 <= i < j < |s| ==> sc.contentId(s[i]) != sc.contentId(s[j])
  }

  lemma OneMoreId(sc: Scheme, s: seq<Signal>, x: Signal)
    requires IdsDiffer(sc, s) && sc.contentId(x) !in ContentIds(sc, s)
    ensures IdsDiffer(sc, s + [x])
  {
    assert forall i :: 0 <= i < |s| ==> s[i] in s;
  }

  lemma AppendNothing(s: seq<Signal>)
    ensures s + [] == s
  {
  }

  lemma NothingDistinct(sc: Scheme)
    ensures Distinct(sc, []) == []
  {
  }

  lemma {:induction false} WalkIds(sc: Scheme, groups: Groups, observed: seq<Signal>, ks: seq<Id>, id: Id)
    requires Indexes(sc, groups, observed) && forall k :: k in ks ==> k in groups
    ensures id in ContentIds(sc, Walk(groups, ks)) <==> exists k :: k in ks && id in Claims(sc, observed, k)
    ensures forall x :: x in Walk(groups, ks) ==> x in observed
  {
    if ks != [] {
      var rest, k := ks[..|ks| - 1], ks[|ks| - 1];
      assert ks == rest + [k];
      WalkIds(sc, groups, observed, rest, id);
      var members := Members(groups[k], Ascending(groups[k].Keys));
      MemberIds(sc, groups, observed, k, id);
      hide Claims, Indexes, Members, Ascending;
      assert forall x :: x in Walk(groups, ks) <==> x in Walk(groups, rest) || x in members;
      assert forall j :: j in ks <==> j in rest || j == k;
    }
  }

  lemma MemberIds(sc: Scheme, groups: Groups, observed: seq<Signal>, k: Id, id: Id)
    requires Indexes(sc, groups, observed) && k in groups
    ensures var members := Members(groups[k], Ascending(groups[k].Keys));
            && (id in ContentIds(sc, members) <==> id in Claims(sc, observed, k))
            && forall x :: x in members ==> x in observed
  {
    hide Claims, ClaimedKeys;
    MembersAreValues(groups[k]);
    hide Members, Ascending;
    if id in groups[k] {
      assert groups[k][id] in groups[k].Values;
    }
  }

  lemma MembersAreValues(group: Group)
    ensures forall x :: x in Members(group, Ascending(group.Keys)) <==> x in group.Values
  {
    var ids := Ascending(group.Keys);
    forall x
      ensures x in Members(group, ids) <==> x in group.Values
    {
      if x in Members(group, ids) {
        var j :| 0 <= j < |ids| && Members(group, ids)[j] == x;
        assert ids[j] in group.Keys;
      }
      if x in group.Values {
        var id :| id in group && group[id] == x;
        assert id in ids;
        var j :| 0 <= j < |ids| && ids[j] == id;
        assert Members(group, ids)[j] == x;
      }
    }
  }

  lemma LinksCountedOnce(sc: Scheme, groups: Groups, observed: seq<Signal>, id: Id)
    requires Indexes(sc, groups, observed)
    ensures var d := Distinct(sc, Walk(groups, Ascending(groups.Keys)));
            && (forall x :: x in d ==> x in observed)
            && IdsDiffer(sc, d)
            && (id in ContentIds(sc, d) <==> exists s :: s in observed && sc.keys(s) != [] && sc.contentId(s) == id)
  {
    var ks := Ascending(groups.Keys);
    WalkIds(sc, groups, observed, ks, id);
    DistinctOnce(sc, Walk(groups, ks));
    if k :| k in ks && id in Claims(sc, observed, k) {
      var s :| s in observed && k in sc.keys(s) && sc.contentId(s) == id;
    }
    if s :| s in observed && sc.keys(s) != [] && sc.contentId(s) == id {
      var k := sc.keys(s)[0];
      assert k in sc.keys(s);
      assert k in ClaimedKeys(sc, observed);
      assert k in ks && id in Claims(sc, observed, k);
    }
  }
}
