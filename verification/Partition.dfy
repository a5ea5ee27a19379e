/** The canonical partition of an epoch's claims into clusters (src/partition.rs): bounded-radius supports by
    breadth-first search, union-find with path compression over overlapping supports, and a listing that does not
    depend on the order the claims arrived in. */
module Partition {
  import opened Sequences
  import opened Sorting

  /** A 32-byte particle or claim id, read as a number so that its order is the byte order. */
  type Particle = nat
  type ClaimId = nat

  type Adjacency = map<Particle, seq<Particle>>

  datatype Link = Link(from: Particle, to: Particle)

  datatype Claim = Claim(id: ClaimId, links: seq<Link>)

  function ClaimParticles(claim: Claim): set<Particle> {
    (set i | 0 <= i < |claim.links| :: claim.links[i].from) + (set i | 0 <= i < |claim.links| :: claim.links[i].to)
  }

  // ---------- supports ----------

  function Neighbours(s: set<Particle>, adjacency: Adjacency): set<Particle> {
    set p, i | p in s && p in adjacency && 0 <= i < |adjacency[p]| :: adjacency[p][i]
  }

  /** Everything within `radius` hops of the seed. */
  function Ball(seed: set<Particle>, adjacency: Adjacency, radius: nat): set<Particle> {
    if radius == 0 then seed
    else Ball(seed, adjacency, radius - 1) + Neighbours(Ball(seed, adjacency, radius - 1), adjacency)
  }

  /** A walk along the adjacency lists. */
  ghost predicate IsWalk(walk: seq<Particle>, adjacency: Adjacency) {
    forall i :: 0 <= i < |walk| - 1 ==> walk[i] in adjacency && walk[i + 1] in adjacency[walk[i]]
  }

  ghost predicate Within(seed: set<Particle>, adjacency: Adjacency, radius: nat, p: Particle) {
    exists walk: seq<Particle> :: 0 < |walk| <= radius + 1 && walk[0] in seed && walk[|walk| - 1] == p && IsWalk(walk, adjacency)
  }

  lemma {:induction false} WalkStaysInBall(seed: set<Particle>, adjacency: Adjacency, radius: nat, walk: seq<Particle>)
    requires 0 < |walk| <= radius + 1 && walk[0] in seed && IsWalk(walk, adjacency)
    ensures walk[|walk| - 1] in Ball(seed, adjacency, radius)
  {
    if |walk| == 1 {
      BallGrows(seed, adjacency, 0, radius);
    } else {
      var rest := walk[..|walk| - 1];
      WalkStaysInBall(seed, adjacency, radius - 1, rest);
      var q := rest[|rest| - 1];
      assert walk[|walk| - 2] == q && walk[|walk| - 2 + 1] in adjacency[q];
    }
  }

  lemma {:induction false} BallGrows(seed: set<Particle>, adjacency: Adjacency, r: nat, s: nat)
    requires r <= s
    ensures Ball(seed, adjacency, r) <= Ball(seed, adjacency, s)
  {
    if r < s {
      BallGrows(seed, adjacency, r, s - 1);
    }
  }

  lemma {:induction false} BallIsWalked(seed: set<Particle>, adjacency: Adjacency, radius: nat, p: Particle)
    requires p in Ball(seed, adjacency, radius)
    ensures Within(seed, adjacency, radius, p)
  {
    if radius == 0 {
      assert IsWalk([p], adjacency) && [p][0] in seed && |[p]| == 1;
    } else if p in Ball(seed, adjacency, radius - 1) {
      BallIsWalked(seed, adjacency, radius - 1, p);
    } else {
      var q, i :| q in Ball(seed, adjacency, radius - 1) && q in adjacency && 0 <= i < |adjacency[q]| && adjacency[q][i] == p;
      BallIsWalked(seed, adjacency, radius - 1, q);
      var walk :| 0 < |walk| <= radius && walk[0] in seed && walk[|walk| - 1] == q && IsWalk(walk, adjacency);
      ExtendWalk(walk, adjacency, p);
      assert (walk + [p])[0] in seed;
    }
  }

  lemma ExtendWalk(walk: seq<Particle>, adjacency: Adjacency, p: Particle)
    requires walk != [] && IsWalk(walk, adjacency) && walk[|walk| - 1] in adjacency && p in adjacency[walk[|walk| - 1]]
    ensures IsWalk(walk + [p], adjacency)
  {
  }

  /** The ball is exactly the particles within that many hops. */
  lemma BallIsWithin(seed: set<Particle>, adjacency: Adjacency, radius: nat, p: Particle)
    ensures p in Ball(seed, adjacency, radius) <==> Within(seed, adjacency, radius, p)
  {
    if p in Ball(seed, adjacency, radius) {
      BallIsWalked(seed, adjacency, radius, p);
    }
    if Within(seed, adjacency, radius, p) {
      var walk :| 0 < |walk| <= radius + 1 && walk[0] in seed && walk[|walk| - 1] == p && IsWalk(walk, adjacency);
      WalkStaysInBall(seed, adjacency, radius, walk);
    }
  }

  /** Once a round adds nothing, no later round does. */
  lemma {:induction false} BallSettles(seed: set<Particle>, adjacency: Adjacency, t: nat, r: nat)
    requires Ball(seed, adjacency, t + 1) == Ball(seed, adjacency, t) && t <= r
    ensures Ball(seed, adjacency, r) == Ball(seed, adjacency, t)
  {
    if t < r {
      BallSettles(seed, adjacency, t, r - 1);
    }
  }

  /** The particles first reached in round t. */
  function Frontier(seed: set<Particle>, adjacency: Adjacency, t: nat): set<Particle> {
    Ball(seed, adjacency, t) - if t == 0 then {} else Ball(seed, adjacency, t - 1)
  }

  /** The next ball needs only the neighbours of what the last round added. */
  lemma FrontierSuffices(seed: set<Particle>, adjacency: Adjacency, t: nat)
    ensures Ball(seed, adjacency, t + 1) == Ball(seed, adjacency, t) + Neighbours(Frontier(seed, adjacency, t), adjacency)
  {
    var b, frontier := Ball(seed, adjacency, t), Frontier(seed, adjacency, t);
    if t > 0 {
      var a := Ball(seed, adjacency, t - 1);
      assert b == a + Neighbours(a, adjacency);
      BallGrows(seed, adjacency, t - 1, t);
      assert b == a + frontier;
      NeighboursUnion(a, frontier, adjacency);
    }
  }

  lemma NeighboursUnion(a: set<Particle>, b: set<Particle>, adjacency: Adjacency)
    ensures Neighbours(a + b, adjacency) == Neighbours(a, adjacency) + Neighbours(b, adjacency)
  {
  }

  /** The members of a set in some order. */
  method Listing(s: set<Particle>) returns (list: seq<Particle>)
    ensures Elements(list) == s
  {
    list := [];
    var rest := s;
    while rest != {}
      invariant rest <= s && Elements(list) == s - rest
    {
      var p :| p in rest;
      rest := rest - {p};
      list := list + [p];
    }
  }

  /** Add the unseen members of a list to the support, remembering which they were. */
  method AddUnseen(support: set<Particle>, neighbours: seq<Particle>, next: seq<Particle>)
    returns (support': set<Particle>, next': seq<Particle>)
    ensures support' == support + Elements(neighbours)
    ensures Elements(next') == Elements(next) + (Elements(neighbours) - support)
  {
    support', next' := support, next;
    var i := 0;
    while i < |neighbours|
      invariant 0 <= i <= |neighbours|
      invariant support' == support + Elements(neighbours[..i])
      invariant Elements(next') == Elements(next) + (Elements(neighbours[..i]) - support)
    {
      assert neighbours[..i + 1] == neighbours[..i] + [neighbours[i]];
      if neighbours[i] !in support' {
        support' := support' + {neighbours[i]};
        next' := next' + [neighbours[i]];
      }
      i := i + 1;
    }
    assert neighbours[..i] == neighbours;
  }

  method ExpandRound(support: set<Particle>, frontier: seq<Particle>, adjacency: Adjacency)
    returns (support': set<Particle>, next: seq<Particle>)
    ensures support' == support + Neighbours(Elements(frontier), adjacency)
    ensures Elements(next) == support' - support
  {
    support', next := support, [];
    var i := 0;
    while i < |frontier|
      invariant 0 <= i <= |frontier|
      invariant support' == support + Neighbours(Elements(frontier[..i]), adjacency)
      invariant Elements(next) == support' - support
    {
      var p := frontier[i];
      assert frontier[..i + 1] == frontier[..i] + [p];
      assert Elements(frontier[..i + 1]) == Elements(frontier[..i]) + {p};
      NeighboursUnion(Elements(frontier[..i]), {p}, adjacency);
      if p in adjacency {
        NeighboursOfOne(p, adjacency);
        support', next := AddUnseen(support', adjacency[p], next);
      }
      i := i + 1;
    }
    assert frontier[..i] == frontier;
  }

  lemma NeighboursOfOne(p: Particle, adjacency: Adjacency)
    requires p in adjacency
    ensures Neighbours({p}, adjacency) == Elements(adjacency[p])
  {
    forall x
      ensures x in Neighbours({p}, adjacency) <==> x in Elements(adjacency[p])
    {
      if x in adjacency[p] {
        var i :| 0 <= i < |adjacency[p]| && adjacency[p][i] == x;
      }
    }
  }

  lemma NextFrontier(seed: set<Particle>, adjacency: Adjacency, t: nat)
    ensures Frontier(seed, adjacency, t + 1) == Ball(seed, adjacency, t + 1) - Ball(seed, adjacency, t)
  {
  }

  /** A round that finds nothing new is the last: the ball has stopped growing. */
  lemma StoppedGrowing(seed: set<Particle>, adjacency: Adjacency, t: nat, radius: nat, next: seq<Particle>)
    requires t < radius && next == []
    requires Elements(next) == Frontier(seed, adjacency, t + 1)
    ensures Ball(seed, adjacency, t + 1) == Ball(seed, adjacency, radius)
  {
    var (before, after) := (Ball(seed, adjacency, t), Ball(seed, adjacency, t + 1));
    BallGrows(seed, adjacency, t, t + 1);
    hide Ball;
    assert forall x :: x in after ==> x in before || x in after - before;
    assert after == before;
    BallSettles(seed, adjacency, t, radius);
  }

  method EpsilonSupport(seed: set<Particle>, adjacency: Adjacency, radius: nat) returns (support: set<Particle>)
    ensures support == Ball(seed, adjacency, radius)
  {
    support := seed;
    assert Ball(seed, adjacency, 0) == seed;
    assert Frontier(seed, adjacency, 0) == seed;
    hide Ball, Elements, Neighbours, Frontier;
    var frontier := Listing(seed);
    var t := 0;
    while t < radius
      invariant 0 <= t <= radius
      invariant support == Ball(seed, adjacency, t)
      invariant Elements(frontier) == Frontier(seed, adjacency, t)
    {
      FrontierSuffices(seed, adjacency, t);
      NextFrontier(seed, adjacency, t);
      var next;
      support, next := ExpandRound(support, frontier, adjacency);
      if next == [] {
        StoppedGrowing(seed, adjacency, t, radius, next);
        return;
      }
      frontier := next;
      t := t + 1;
    }
  }

  // ---------- union-find ----------

  /** Every link points to a smaller or equal index. */
  ghost predicate Forest(p: seq<nat>) {
    forall i :: 0 <= i < |p| ==> p[i] <= i
  }

  ghost function Root(p: seq<nat>, x: nat): (r: nat)
    requires Forest(p) && x < |p|
    ensures r <= x && p[r] == r
    decreases x
  {
    if p[x] == x then x else Root(p, p[x])
  }

  ghost predicate SameRoots(p: seq<nat>, q: seq<nat>) {
    && Forest(p) && Forest(q) && |p| == |q|
    && forall y :: 0 <= y < |p| ==> Root(q, y) == Root(p, y)
  }

  lemma SameRootsTrans(p: seq<nat>, q: seq<nat>, r: seq<nat>)
    requires SameRoots(p, q) && SameRoots(q, r)
    ensures SameRoots(p, r)
  {
  }

  /** Pointing a node straight at its root changes no root. */
  lemma Compression(p: seq<nat>, x: nat)
    requires Forest(p) && x < |p|
    ensures SameRoots(p, p[x := Root(p, x)])
  {
    forall y | 0 <= y < |p|
      ensures Root(p[x := Root(p, x)], y) == Root(p, y)
    {
      CompressionAt(p, x, y);
    }
  }

  lemma {:induction false} CompressionAt(p: seq<nat>, x: nat, y: nat)
    requires Forest(p) && x < |p| && y < |p|
    ensures Forest(p[x := Root(p, x)]) && Root(p[x := Root(p, x)], y) == Root(p, y)
    decreases y
  {
    var q := p[x := Root(p, x)];
    if y == x {
      var r := Root(p, x);
      assert q[r] == r;
      assert Root(q, r) == r;
    } else if p[y] != y {
      CompressionAt(p, x, p[y]);
    }
  }

  method Find(parent: array<nat>, x: nat) returns (r: nat)
    requires Forest(parent[..]) && x < parent.Length
    modifies parent
    ensures SameRoots(old(parent[..]), parent[..]) && r == Root(old(parent[..]), x)
    decreases x
  {
    if parent[x] != x {
      ghost var before := parent[..];
      r := Find(parent, parent[x]);
      ghost var found := parent[..];
      assert r == Root(before, x) == Root(found, x);
      Compression(found, x);
      parent[x] := r;
      assert parent[..] == found[x := r];
      SameRootsTrans(before, found, parent[..]);
    }
    r := parent[x];
  }

  /** Hanging one root under a smaller one merges exactly those two trees. */
  lemma {:induction false} LinkAt(p: seq<nat>, hi: nat, lo: nat, y: nat)
    requires Forest(p) && lo < hi < |p| && p[hi] == hi && p[lo] == lo && y < |p|
    ensures Forest(p[hi := lo])
    ensures Root(p[hi := lo], y) == if Root(p, y) == hi then lo else Root(p, y)
    decreases y
  {
    var q := p[hi := lo];
    if y == hi {
      assert q[lo] == lo;
    } else if p[y] != y {
      LinkAt(p, hi, lo, p[y]);
    }
  }

  /** The roots after a union: the two trees share the smaller of their roots, all others keep theirs. */
  ghost predicate Merged(p: seq<nat>, q: seq<nat>, a: nat, b: nat)
    requires Forest(p) && a < |p| && b < |p|
  {
    var ra, rb := Root(p, a), Root(p, b);
    var lo := if ra < rb then ra else rb;
    && Forest(q) && |q| == |p|
    && forall y :: 0 <= y < |p| ==> Root(q, y) == if Root(p, y) == ra || Root(p, y) == rb then lo else Root(p, y)
  }

  method Union(parent: array<nat>, a: nat, b: nat)
    requires Forest(parent[..]) && a < parent.Length && b < parent.Length
    modifies parent
    ensures Merged(old(parent[..]), parent[..], a, b)
  {
    ghost var p := parent[..];
    var ra := Find(parent, a);
    ghost var p1 := parent[..];
    var rb := Find(parent, b);
    ghost var p2 := parent[..];
    SameRootsTrans(p, p1, p2);
    if ra != rb {
      var hi: nat := if ra > rb then ra else rb;
      var lo: nat := if ra > rb then rb else ra;
      RootIsFixed(p, p2, a);
      RootIsFixed(p, p2, b);
      parent[hi] := lo;
      assert parent[..] == p2[hi := lo];
      forall y | 0 <= y < |p|
        ensures Forest(p2[hi := lo]) && Root(p2[hi := lo], y) == if Root(p, y) == hi || Root(p, y) == lo then lo else Root(p, y)
      {
        LinkAt(p2, hi, lo, y);
      }
    }
  }

  lemma RootIsFixed(p: seq<nat>, q: seq<nat>, a: nat)
    requires SameRoots(p, q) && a < |p|
    ensures Root(p, a) < |q| && q[Root(p, a)] == Root(p, a)
  {
    assert Root(q, a) == Root(p, a);
  }

  // ---------- connectivity ----------

  type Edge = (nat, nat)

  ghost predicate Step(edges: set<Edge>, a: nat, b: nat) {
    a == b || (a, b) in edges || (b, a) in edges
  }

  ghost predicate IsChain(edges: set<Edge>, chain: seq<nat>) {
    forall i :: 0 <= i < |chain| - 1 ==> Step(edges, chain[i], chain[i + 1])
  }

  ghost predicate Connected(edges: set<Edge>, a: nat, b: nat) {
    exists chain: seq<nat> :: chain != [] && chain[0] == a && chain[|chain| - 1] == b && IsChain(edges, chain)
  }

  lemma ConnectedRefl(edges: set<Edge>, a: nat)
    ensures Connected(edges, a, a)
  {
    assert IsChain(edges, [a]) && [a][0] == a;
  }

  lemma ConnectedTrans(edges: set<Edge>, a: nat, b: nat, c: nat)
    requires Connected(edges, a, b) && Connected(edges, b, c)
    ensures Connected(edges, a, c)
  {
    var x :| x != [] && x[0] == a && x[|x| - 1] == b && IsChain(edges, x);
    var y :| y != [] && y[0] == b && y[|y| - 1] == c && IsChain(edges, y);
    JoinChains(edges, x, y);
    assert (x + y)[0] == a && (x + y)[|x + y| - 1] == c;
  }

  lemma JoinChains(edges: set<Edge>, x: seq<nat>, y: seq<nat>)
    requires x != [] && y != [] && x[|x| - 1] == y[0] && IsChain(edges, x) && IsChain(edges, y)
    ensures IsChain(edges, x + y)
  {
    var z := x + y;
    forall i | 0 <= i < |z| - 1
      ensures Step(edges, z[i], z[i + 1])
    {
      if i < |x| - 1 {
        assert Step(edges, x[i], x[i + 1]);
      } else if i >= |x| {
        assert Step(edges, y[i - |x|], y[i - |x| + 1]);
      }
    }
  }

  lemma StepConnects(edges: set<Edge>, a: nat, b: nat)
    requires Step(edges, a, b)
    ensures Connected(edges, a, b) && Connected(edges, b, a)
  {
    assert IsChain(edges, [a, b]) && [a, b][0] == a && [a, b][1] == b;
    assert IsChain(edges, [b, a]) && [b, a][0] == b && [b, a][1] == a;
  }

  lemma ConnectedMonotone(edges: set<Edge>, more: set<Edge>, a: nat, b: nat)
    requires edges <= more && Connected(edges, a, b)
    ensures Connected(more, a, b)
  {
    var x :| x != [] && x[0] == a && x[|x| - 1] == b && IsChain(edges, x);
    assert IsChain(more, x) by {
      forall i | 0 <= i < |x| - 1
        ensures Step(more, x[i], x[i + 1])
      {
        assert Step(edges, x[i], x[i + 1]);
      }
    }
  }

  /** The forest's trees are the connected components of the edges seen so far. */
  ghost predicate Represents(p: seq<nat>, edges: set<Edge>) {
    && Forest(p)
    && (forall e :: e in edges ==> e.0 < |p| && e.1 < |p|)
    && forall a, b :: 0 <= a < |p| && 0 <= b < |p| ==> (Root(p, a) == Root(p, b) <==> Connected(edges, a, b))
  }

  /** If the ends of every edge share a root, so do the ends of every chain. */
  lemma {:induction false} ChainSharesRoot(p: seq<nat>, edges: set<Edge>, chain: seq<nat>)
    requires Forest(p) && chain != [] && chain[0] < |p| && IsChain(edges, chain)
    requires forall e :: e in edges ==> e.0 < |p| && e.1 < |p| && Root(p, e.0) == Root(p, e.1)
    ensures chain[|chain| - 1] < |p| && Root(p, chain[|chain| - 1]) == Root(p, chain[0])
  {
    if |chain| > 1 {
      var rest := chain[1..];
      assert Step(edges, chain[0], chain[0 + 1]);
      assert IsChain(edges, rest) by {
        forall i | 0 <= i < |rest| - 1
          ensures Step(edges, rest[i], rest[i + 1])
        {
          assert Step(edges, chain[i + 1], chain[i + 1 + 1]);
        }
      }
      assert rest[0] < |p| && Root(p, rest[0]) == Root(p, chain[0]) by {
        if (chain[0], chain[1]) in edges {
          assert Root(p, (chain[0], chain[1]).0) == Root(p, (chain[0], chain[1]).1);
        } else if (chain[1], chain[0]) in edges {
          assert Root(p, (chain[1], chain[0]).0) == Root(p, (chain[1], chain[0]).1);
        }
      }
      ChainSharesRoot(p, edges, rest);
    }
  }

  lemma ConnectedSharesRoot(p: seq<nat>, edges: set<Edge>, a: nat, b: nat)
    requires Forest(p) && a < |p| && Connected(edges, a, b)
    requires forall e :: e in edges ==> e.0 < |p| && e.1 < |p| && Root(p, e.0) == Root(p, e.1)
    ensures b < |p| && Root(p, a) == Root(p, b)
  {
    var x :| x != [] && x[0] == a && x[|x| - 1] == b && IsChain(edges, x);
    ChainSharesRoot(p, edges, x);
  }

  /** A union across a new edge keeps the correspondence. */
  lemma UnionRepresents(p: seq<nat>, q: seq<nat>, edges: set<Edge>, i: nat, j: nat)
    requires Represents(p, edges) && i < |p| && j < |p| && Merged(p, q, i, j)
    ensures Represents(q, edges + {(i, j)})
  {
    var more := edges + {(i, j)};
    forall e | e in more
      ensures Root(q, e.0) == Root(q, e.1)
    {
      if e in edges {
        StepConnects(edges, e.0, e.1);
      }
    }
    forall a, b | 0 <= a < |q| && 0 <= b < |q|
      ensures Root(q, a) == Root(q, b) <==> Connected(more, a, b)
    {
      if Connected(more, a, b) {
        ConnectedSharesRoot(q, more, a, b);
      }
      if Root(q, a) == Root(q, b) {
        MergedConnected(p, q, edges, i, j, a, b);
      }
    }
  }

  lemma MergedConnected(p: seq<nat>, q: seq<nat>, edges: set<Edge>, i: nat, j: nat, a: nat, b: nat)
    requires Represents(p, edges) && i < |p| && j < |p| && Merged(p, q, i, j)
    requires a < |p| && b < |p| && Root(q, a) == Root(q, b)
    ensures Connected(edges + {(i, j)}, a, b)
  {
    var more := edges + {(i, j)};
    StepConnects(more, i, j);
    if Root(p, a) == Root(p, b) {
      ConnectedMonotone(edges, more, a, b);
    } else if Root(p, a) == Root(p, i) {
      assert Connected(edges, a, i) && Connected(edges, j, b);
      ConnectedMonotone(edges, more, a, i);
      ConnectedMonotone(edges, more, j, b);
      ConnectedTrans(more, a, i, j);
      ConnectedTrans(more, a, j, b);
    } else {
      assert Connected(edges, a, j) && Connected(edges, i, b);
      ConnectedMonotone(edges, more, a, j);
      ConnectedMonotone(edges, more, i, b);
      ConnectedTrans(more, a, j, i);
      ConnectedTrans(more, a, i, b);
    }
  }

  // ---------- uniting overlapping supports ----------

  predicate Overlap(supports: seq<set<Particle>>, a: nat, b: nat)
    requires a < |supports| && b < |supports|
  {
    exists x :: x in supports[a] && x in supports[b]
  }

  /** The overlapping pairs examined before the pair (i, j). */
  ghost function EdgesBefore(supports: seq<set<Particle>>, i: nat, j: nat): set<Edge> {
    set a: nat, b: nat | a < |supports| && b < |supports| && a < b && (a < i || (a == i && b < j)) && Overlap(supports, a, b) :: (a, b)
  }

  ghost function OverlapEdges(supports: seq<set<Particle>>): set<Edge> {
    EdgesBefore(supports, |supports|, 0)
  }

  lemma NextPair(supports: seq<set<Particle>>, i: nat, j: nat)
    requires i < j < |supports|
    ensures EdgesBefore(supports, i, j + 1)
         == EdgesBefore(supports, i, j) + if Overlap(supports, i, j) then {(i, j)} else {}
  {
  }

  lemma NextRow(supports: seq<set<Particle>>, i: nat)
    requires i < |supports|
    ensures EdgesBefore(supports, i, |supports|) == EdgesBefore(supports, i + 1, i + 2)
  {
  }

  lemma NothingSeen(p: seq<nat>)
    requires forall i :: 0 <= i < |p| ==> p[i] == i
    ensures Represents(p, {})
  {
    forall a, b | 0 <= a < |p| && 0 <= b < |p|
      ensures Root(p, a) == Root(p, b) <==> Connected({}, a, b)
    {
      if a == b {
        ConnectedRefl({}, a);
      }
      if Connected({}, a, b) {
        ConnectedSharesRoot(p, {}, a, b);
      }
    }
  }

  /** Examine one pair of claims. */
  method UnitePair(parent: array<nat>, supports: seq<set<Particle>>, i: nat, j: nat)
    requires i < j < |supports| == parent.Length && Represents(parent[..], EdgesBefore(supports, i, j))
    modifies parent
    ensures Represents(parent[..], EdgesBefore(supports, i, j + 1))
  {
    NextPair(supports, i, j);
    if Overlap(supports, i, j) {
      ghost var before := parent[..];
      Union(parent, i, j);
      UnionRepresents(before, parent[..], EdgesBefore(supports, i, j), i, j);
    }
  }

  method UniteRow(parent: array<nat>, supports: seq<set<Particle>>, i: nat)
    requires i < |supports| == parent.Length && Represents(parent[..], EdgesBefore(supports, i, i + 1))
    modifies parent
    ensures Represents(parent[..], EdgesBefore(supports, i, |supports|))
  {
    hide Represents, EdgesBefore, Overlap;
    var j := i + 1;
    while j < |supports|
      invariant i < j <= |supports|
      invariant Represents(parent[..], EdgesBefore(supports, i, j))
    {
      UnitePair(parent, supports, i, j);
      j := j + 1;
    }
  }

  lemma NoEdgesBefore(supports: seq<set<Particle>>)
    ensures EdgesBefore(supports, 0, 1) == {}
  {
  }

  method UniteOverlaps(supports: seq<set<Particle>>) returns (parent: array<nat>)
    ensures fresh(parent) && parent.Length == |supports| && Represents(parent[..], OverlapEdges(supports))
  {
    var n := |supports|;
    parent := new nat[n](i => i);
    hide Represents, EdgesBefore, Overlap;
    NothingSeen(parent[..]);
    NoEdgesBefore(supports);
    var i := 0;
    while i < n
      invariant 0 <= i <= n
      invariant Represents(parent[..], EdgesBefore(supports, i, i + 1))
    {
      UniteRow(parent, supports, i);
      NextRow(supports, i);
      i := i + 1;
    }
    AllPairs(supports);
  }

  lemma AllPairs(supports: seq<set<Particle>>)
    ensures EdgesBefore(supports, |supports|, |supports| + 1) == OverlapEdges(supports)
  {
  }

  // ---------- listing the clusters ----------

  /** The indices below m whose root is r, in increasing order. */
  ghost function MembersOf(p: seq<nat>, r: nat, m: nat): (list: seq<nat>)
    requires Forest(p) && m <= |p|
    ensures forall x: nat :: x in list <==> x < m && Root(p, x) == r
    ensures forall a, b :: 0 <= a < b < |list| ==> list[a] < list[b]
  {
    if m == 0 then []
    else
      var rest := MembersOf(p, r, m - 1);
      assert forall a :: 0 <= a < |rest| ==> rest[a] in rest;
      if Root(p, m - 1) == r then rest + [m - 1] else rest
  }

  lemma {:induction false} MembersOfSameRoots(p: seq<nat>, q: seq<nat>, r: nat, m: nat)
    requires SameRoots(p, q) && m <= |p|
    ensures MembersOf(p, r, m) == MembersOf(q, r, m)
  {
    if m > 0 {
      MembersOfSameRoots(p, q, r, m - 1);
    }
  }

  /** The groups built so far: each root met, with the indices below m under it. */
  ghost predicate Grouped(groups: map<nat, seq<nat>>, p: seq<nat>, m: nat)
    requires Forest(p) && m <= |p|
  {
    forall r: nat ::
      && (r in groups <==> MembersOf(p, r, m) != [])
      && (r in groups ==> groups[r] == MembersOf(p, r, m))
  }

  function Appended(groups: map<nat, seq<nat>>, root: nat, i: nat): map<nat, seq<nat>> {
    groups[root := (if root in groups then groups[root] else []) + [i]]
  }

  lemma GroupedStep(groups: map<nat, seq<nat>>, p: seq<nat>, i: nat)
    requires Forest(p) && i < |p| && Grouped(groups, p, i)
    ensures Grouped(Appended(groups, Root(p, i), i), p, i + 1)
  {
    var after := Appended(groups, Root(p, i), i);
    forall r: nat
      ensures r in after <==> MembersOf(p, r, i + 1) != []
      ensures r in after ==> after[r] == MembersOf(p, r, i + 1)
    {
      assert r in groups <==> MembersOf(p, r, i) != [];
    }
  }

  lemma GroupNext(groups: map<nat, seq<nat>>, p: seq<nat>, q: seq<nat>, r: seq<nat>, root: nat, i: nat)
    requires SameRoots(p, q) && SameRoots(q, r) && i < |p| && root == Root(q, i) && Grouped(groups, p, i)
    ensures Forest(r) && SameRoots(p, r) && Grouped(Appended(groups, root, i), p, i + 1)
  {
    hide Grouped, Root, Appended, MembersOf, Forest;
    RootsAgree(p, q, i);
    SameRootsTrans(p, q, r);
    GroupedStep(groups, p, i);
  }

  method GroupByRoot(parent: array<nat>) returns (groups: map<nat, seq<nat>>)
    requires Forest(parent[..])
    modifies parent
    ensures SameRoots(old(parent[..]), parent[..]) && Grouped(groups, old(parent[..]), parent.Length)
  {
    groups := map[];
    ghost var p := parent[..];
    NothingGrouped(p);
    hide *;
    var i := 0;
    while i < parent.Length
      invariant 0 <= i <= parent.Length
      invariant Forest(p) && SameRoots(p, parent[..]) && Grouped(groups, p, i)
    {
      groups := AddMember(parent, groups, p, i);
      i := i + 1;
    }
  }

  method AddMember(parent: array<nat>, groups: map<nat, seq<nat>>, ghost p: seq<nat>, i: nat) returns (more: map<nat, seq<nat>>)
    requires i < |p| && SameRoots(p, parent[..]) && Grouped(groups, p, i)
    modifies parent
    ensures SameRoots(p, parent[..]) && Grouped(more, p, i + 1)
  {
    ghost var q := parent[..];
    var root := Find(parent, i);
    GroupNext(groups, p, q, parent[..], root, i);
    hide *;
    more := Appended(groups, root, i);
  }

  lemma NothingGrouped(p: seq<nat>)
    requires Forest(p)
    ensures Grouped(map[], p, 0) && SameRoots(p, p)
  {
  }

  lemma RootsAgree(p: seq<nat>, q: seq<nat>, i: nat)
    requires SameRoots(p, q) && i < |p|
    ensures Forest(p) && Forest(q) && |p| == |q| && Root(p, i) == Root(q, i)
  {
  }

  lemma ForestsBoth(p: seq<nat>, q: seq<nat>)
    requires SameRoots(p, q)
    ensures Forest(q) && |q| == |p|
  {
  }

  predicate ByKey(keys: seq<ClaimId>, a: nat, b: nat) {
    (if a < |keys| then keys[a] else 0) <= (if b < |keys| then keys[b] else 0)
  }

  function MemberOrder(keys: seq<ClaimId>): (nat, nat) -> bool {
    (a: nat, b: nat) => ByKey(keys, a, b)
  }

  function HeadOrder(keys: seq<ClaimId>): (seq<nat>, seq<nat>) -> bool {
    (a: seq<nat>, b: seq<nat>) => ByKey(keys, if a == [] then 0 else a[0], if b == [] then 0 else b[0])
  }

  lemma OrdersArePreorders(keys: seq<ClaimId>)
    ensures TotalPreorder(MemberOrder(keys)) && TotalPreorder(HeadOrder(keys))
  {
  }

  ghost predicate Listed(listing: seq<seq<nat>>, x: nat) {
    exists c :: 0 <= c < |listing| && x in listing[c]
  }

  /** A list of clusters of the indices below n: which index sits with which, and how they are listed. */
  ghost predicate IsListing(listing: seq<seq<nat>>, keys: seq<ClaimId>, edges: set<Edge>, n: nat) {
    && |keys| == n
    && (forall c, x :: 0 <= c < |listing| && x in listing[c] ==> x < n)
    && (forall c :: 0 <= c < |listing| ==> listing[c] != [] && NoDup(listing[c]) && Sorted(listing[c], MemberOrder(keys)))
    && Sorted(listing, HeadOrder(keys))
    && (forall x: nat :: x < n ==> Listed(listing, x))
    && (forall c, d, x :: 0 <= c < |listing| && 0 <= d < |listing| && x in listing[c] && x in listing[d] ==> c == d)
    && (forall c, x, y: nat :: 0 <= c < |listing| && x in listing[c] && y < n ==> (y in listing[c] <==> Connected(edges, x, y)))
  }

  /** The clusters of the roots below r, in root order, each sorted by claim id. */
  ghost predicate SortedUpTo(clusters: seq<seq<nat>>, roots: seq<nat>, groups: map<nat, seq<nat>>, keys: seq<ClaimId>, r: nat) {
    && |roots| == |clusters|
    && (forall a, b :: 0 <= a < b < |roots| ==> roots[a] < roots[b])
    && (forall x: nat :: x in roots <==> x in groups && x < r)
    && (forall c :: 0 <= c < |clusters| ==> roots[c] in groups && clusters[c] == Sort(groups[roots[c]], MemberOrder(keys)))
  }

  lemma SortedUpToStep(clusters: seq<seq<nat>>, roots: seq<nat>, groups: map<nat, seq<nat>>, keys: seq<ClaimId>, r: nat)
    requires SortedUpTo(clusters, roots, groups, keys, r)
    ensures r in groups ==> SortedUpTo(clusters + [Sort(groups[r], MemberOrder(keys))], roots + [r], groups, keys, r + 1)
    ensures r !in groups ==> SortedUpTo(clusters, roots, groups, keys, r + 1)
  {
    assert forall a :: 0 <= a < |roots| ==> roots[a] in roots;
  }

  /** The groups in root order, each sorted by claim id. */
  method SortGroups(groups: map<nat, seq<nat>>, keys: seq<ClaimId>) returns (clusters: seq<seq<nat>>, roots: seq<nat>)
    ensures SortedUpTo(clusters, roots, groups, keys, |keys|)
  {
    clusters, roots := [], [];
    var r := 0;
    while r < |keys|
      invariant 0 <= r <= |keys|
      invariant SortedUpTo(clusters, roots, groups, keys, r)
    {
      SortedUpToStep(clusters, roots, groups, keys, r);
      if r in groups {
        clusters := clusters + [Sort(groups[r], MemberOrder(keys))];
        roots := roots + [r];
      }
      r := r + 1;
    }
  }

  method PartitionIntoClusters(claims: seq<Claim>, adjacency: Adjacency, radius: nat) returns (clusters: seq<seq<nat>>)
    ensures IsListing(clusters, Ids(claims), OverlapEdges(Supports(claims, adjacency, radius)), |claims|)
  {
    var supports: seq<set<Particle>> := [];
    var i := 0;
    while i < |claims|
      invariant 0 <= i <= |claims|
      invariant supports == Supports(claims[..i], adjacency, radius)
    {
      var support := EpsilonSupport(ClaimParticles(claims[i]), adjacency, radius);
      supports := supports + [support];
      i := i + 1;
    }
    assert claims[..i] == claims;
    var parent := UniteOverlaps(supports);
    ghost var p := parent[..];
    var groups := GroupByRoot(parent);
    var sorted, roots := SortGroups(groups, Ids(claims));
    ListingFromGroups(sorted, roots, groups, Ids(claims), OverlapEdges(supports), p);
    clusters := Sort(sorted, HeadOrder(Ids(claims)));
  }

  function Ids(claims: seq<Claim>): (ids: seq<ClaimId>)
    ensures |ids| == |claims| && forall i :: 0 <= i < |ids| ==> ids[i] == claims[i].id
  {
    seq(|claims|, i requires 0 <= i < |claims| => claims[i].id)
  }

  function Support(claim: Claim, adjacency: Adjacency, radius: nat): set<Particle> {
    Ball(ClaimParticles(claim), adjacency, radius)
  }

  function Supports(claims: seq<Claim>, adjacency: Adjacency, radius: nat): (s: seq<set<Particle>>)
    ensures |s| == |claims| && forall i :: 0 <= i < |s| ==> s[i] == Support(claims[i], adjacency, radius)
  {
    seq(|claims|, i requires 0 <= i < |claims| => Support(claims[i], adjacency, radius))
  }

  lemma ListingFromGroups(sorted: seq<seq<nat>>, roots: seq<nat>, groups: map<nat, seq<nat>>, keys: seq<ClaimId>, edges: set<Edge>, p: seq<nat>)
    requires Represents(p, edges) && |p| == |keys| && Grouped(groups, p, |p|)
    requires SortedUpTo(sorted, roots, groups, keys, |keys|)
    ensures IsListing(Sort(sorted, HeadOrder(keys)), keys, edges, |keys|)
  {
    OrdersArePreorders(keys);
    forall c | 0 <= c < |sorted|
      ensures IsClass(sorted[c], p, roots[c], keys)
    {
      ClassOfRoot(p, roots[c], keys);
    }
    forall x: nat | x < |p|
      ensures Root(p, x) in roots
    {
      assert x in MembersOf(p, Root(p, x), |p|);
    }
    SortKeepsClasses(sorted, roots, p, keys);
    SortSorted(sorted, HeadOrder(keys));
    ClassesAreListing(Sort(sorted, HeadOrder(keys)), p, keys, edges);
  }

  /** The sorted members of one tree. */
  ghost predicate IsClass(cluster: seq<nat>, p: seq<nat>, r: nat, keys: seq<ClaimId>)
    requires Forest(p)
  {
    && cluster != [] && NoDup(cluster) && Sorted(cluster, MemberOrder(keys))
    && forall x: nat :: x in cluster <==> x < |p| && Root(p, x) == r
  }

  ghost predicate SomeClass(cluster: seq<nat>, p: seq<nat>, keys: seq<ClaimId>)
    requires Forest(p)
  {
    exists r :: IsClass(cluster, p, r, keys)
  }

  lemma ClassOfRoot(p: seq<nat>, r: nat, keys: seq<ClaimId>)
    requires Forest(p) && MembersOf(p, r, |p|) != []
    ensures IsClass(Sort(MembersOf(p, r, |p|), MemberOrder(keys)), p, r, keys)
  {
    var members := MembersOf(p, r, |p|);
    OrdersArePreorders(keys);
    SortRearranges(members, MemberOrder(keys));
    SortSorted(members, MemberOrder(keys));
    SameElements(members, Sort(members, MemberOrder(keys)));
    NoDupRearranged(members, Sort(members, MemberOrder(keys)));
  }

  lemma NoDupRearranged<T(!new)>(a: seq<T>, b: seq<T>)
    requires NoDup(a) && multiset(a) == multiset(b)
    ensures NoDup(b)
  {
    forall i, j | 0 <= i < j < |b|
      ensures b[i] != b[j]
    {
      if b[i] == b[j] {
        assert b == b[..j] + [b[j]] + b[j + 1..];
        assert b[i] in b[..j];
        assert multiset(b) == multiset(b[..j]) + multiset{b[j]} + multiset(b[j + 1..]);
        MultiplicityAtMostOne(a, b[i]);
      }
    }
  }

  /** Each tree is listed as exactly one cluster. */
  ghost predicate ListsClasses(listing: seq<seq<nat>>, p: seq<nat>, keys: seq<ClaimId>)
    requires Forest(p)
  {
    && (forall c, d, x :: 0 <= c < |listing| && 0 <= d < |listing| && x in listing[c] && x in listing[d] ==> c == d)
    && (forall c :: 0 <= c < |listing| ==> SomeClass(listing[c], p, keys))
    && (forall x: nat :: x < |p| ==> Listed(listing, x))
  }

  lemma SortKeepsClasses(sorted: seq<seq<nat>>, roots: seq<nat>, p: seq<nat>, keys: seq<ClaimId>)
    requires Forest(p) && |roots| == |sorted| && forall a, b :: 0 <= a < b < |roots| ==> roots[a] < roots[b]
    requires forall c :: 0 <= c < |sorted| ==> IsClass(sorted[c], p, roots[c], keys)
    requires forall x: nat :: x < |p| ==> Root(p, x) in roots
    ensures ListsClasses(Sort(sorted, HeadOrder(keys)), p, keys)
  {
    hide Sort, IsClass, SomeClass, Listed, Sorted, HeadOrder;
    var listing := Sort(sorted, HeadOrder(keys));
    SortRearranges(sorted, HeadOrder(keys));
    SameElements(sorted, listing);
    ClassesDiffer(sorted, roots, p, keys);
    NoDupRearranged(sorted, listing);
    EachIsClass(sorted, listing, roots, p, keys);
    EachIsListed(sorted, listing, roots, p, keys);
    ClassesAreApart(sorted, listing, roots, p, keys);
  }

  lemma ClassesDiffer(sorted: seq<seq<nat>>, roots: seq<nat>, p: seq<nat>, keys: seq<ClaimId>)
    requires Forest(p) && |roots| == |sorted| && forall a, b :: 0 <= a < b < |roots| ==> roots[a] < roots[b]
    requires forall c :: 0 <= c < |sorted| ==> IsClass(sorted[c], p, roots[c], keys)
    ensures NoDup(sorted)
  {
    forall a, b | 0 <= a < b < |sorted|
      ensures sorted[a] != sorted[b]
    {
      assert sorted[a][0] in sorted[a] && sorted[b][0] in sorted[b];
    }
  }

  lemma EachIsClass(sorted: seq<seq<nat>>, listing: seq<seq<nat>>, roots: seq<nat>, p: seq<nat>, keys: seq<ClaimId>)
    requires Forest(p) && |roots| == |sorted| && forall c :: c in listing ==> c in sorted
    requires forall c :: 0 <= c < |sorted| ==> IsClass(sorted[c], p, roots[c], keys)
    ensures forall c :: 0 <= c < |listing| ==> SomeClass(listing[c], p, keys)
  {
    forall c | 0 <= c < |listing|
      ensures SomeClass(listing[c], p, keys)
    {
      assert listing[c] in sorted;
      var d :| 0 <= d < |sorted| && sorted[d] == listing[c];
      assert IsClass(listing[c], p, roots[d], keys);
    }
  }

  lemma EachIsListed(sorted: seq<seq<nat>>, listing: seq<seq<nat>>, roots: seq<nat>, p: seq<nat>, keys: seq<ClaimId>)
    requires Forest(p) && |roots| == |sorted| && forall c :: c in sorted ==> c in listing
    requires forall c :: 0 <= c < |sorted| ==> IsClass(sorted[c], p, roots[c], keys)
    requires forall x: nat :: x < |p| ==> Root(p, x) in roots
    ensures forall x: nat :: x < |p| ==> Listed(listing, x)
  {
    forall x: nat | x < |p|
      ensures Listed(listing, x)
    {
      var d :| 0 <= d < |roots| && roots[d] == Root(p, x);
      ClassMember(sorted[d], p, roots[d], keys, x);
      assert sorted[d] in listing;
    }
  }

  lemma ClassesAreApart(sorted: seq<seq<nat>>, listing: seq<seq<nat>>, roots: seq<nat>, p: seq<nat>, keys: seq<ClaimId>)
    requires Forest(p) && |roots| == |sorted| && (forall c :: c in listing ==> c in sorted) && NoDup(listing)
    requires forall a, b :: 0 <= a < b < |roots| ==> roots[a] < roots[b]
    requires forall c :: 0 <= c < |sorted| ==> IsClass(sorted[c], p, roots[c], keys)
    ensures forall c, d, x :: 0 <= c < |listing| && 0 <= d < |listing| && x in listing[c] && x in listing[d] ==> c == d
  {
    hide IsClass;
    forall c, d, x | 0 <= c < |listing| && 0 <= d < |listing| && x in listing[c] && x in listing[d]
      ensures c == d
    {
      assert listing[c] in sorted && listing[d] in sorted;
      var i :| 0 <= i < |sorted| && sorted[i] == listing[c];
      var j :| 0 <= j < |sorted| && sorted[j] == listing[d];
      ClassMember(sorted[i], p, roots[i], keys, x);
      ClassMember(sorted[j], p, roots[j], keys, x);
    }
  }

  lemma ClassMember(cluster: seq<nat>, p: seq<nat>, r: nat, keys: seq<ClaimId>, x: nat)
    requires Forest(p) && IsClass(cluster, p, r, keys)
    ensures x in cluster <==> x < |p| && Root(p, x) == r
  {
  }

  lemma ClassesAreListing(listing: seq<seq<nat>>, p: seq<nat>, keys: seq<ClaimId>, edges: set<Edge>)
    requires Represents(p, edges) && |p| == |keys| && ListsClasses(listing, p, keys) && Sorted(listing, HeadOrder(keys))
    ensures IsListing(listing, keys, edges, |keys|)
  {
    forall c, x, y: nat | 0 <= c < |listing| && x in listing[c] && y < |keys|
      ensures y in listing[c] <==> Connected(edges, x, y)
    {
      var r :| IsClass(listing[c], p, r, keys);
    }
    forall c | 0 <= c < |listing|
      ensures listing[c] != [] && NoDup(listing[c]) && Sorted(listing[c], MemberOrder(keys))
      ensures forall x :: x in listing[c] ==> x < |keys|
    {
      var r :| IsClass(listing[c], p, r, keys);
    }
  }

  // ---------- the listing does not depend on the order of the claims ----------

  function IdListing(listing: seq<seq<nat>>, keys: seq<ClaimId>): (r: seq<seq<ClaimId>>)
    requires forall c, i :: 0 <= c < |listing| && 0 <= i < |listing[c]| ==> listing[c][i] < |keys|
    ensures |r| == |listing| && forall c :: 0 <= c < |r| ==> |r[c]| == |listing[c]|
    ensures forall c, i :: 0 <= c < |r| && 0 <= i < |r[c]| ==> r[c][i] == keys[listing[c][i]]
  {
    seq(|listing|, c requires 0 <= c < |listing| =>
      seq(|listing[c]|, i requires 0 <= i < |listing[c]| => keys[listing[c][i]]))
  }

  ghost predicate Increasing(s: seq<ClaimId>) {
    forall i, j :: 0 <= i < j < |s| ==> s[i] < s[j]
  }

  /** The listing of the ids in `ids` by the equivalence `related`: clusters and their heads in increasing order. */
  ghost predicate Canonical(listing: seq<seq<ClaimId>>, ids: set<ClaimId>, related: set<(ClaimId, ClaimId)>) {
    && (forall c :: 0 <= c < |listing| ==> listing[c] != [] && Increasing(listing[c]))
    && (forall c, d :: 0 <= c < d < |listing| ==> listing[c][0] < listing[d][0])
    && (forall c, x :: 0 <= c < |listing| && x in listing[c] ==> x in ids)
    && (forall x :: x in ids ==> Listed(listing, x))
    && (forall c, x, y :: 0 <= c < |listing| && x in listing[c] && y in ids ==> (y in listing[c] <==> (x, y) in related))
  }

  lemma SameElementsEmpty(s: seq<ClaimId>, t: seq<ClaimId>)
    requires forall x :: x in s <==> x in t
    ensures s == [] <==> t == []
  {
    assert s != [] ==> s[0] in s;
    assert t != [] ==> t[0] in t;
  }

  lemma {:induction false} IncreasingUnique(s: seq<ClaimId>, t: seq<ClaimId>)
    requires Increasing(s) && Increasing(t) && forall x :: x in s <==> x in t
    ensures s == t
  {
    if s == [] || t == [] {
      SameElementsEmpty(s, t);
    } else {
      assert s[0] in t && t[0] in s;
      assert s[0] == t[0];
      forall x
        ensures x in s[1..] <==> x in t[1..]
      {
        assert x in s <==> x == s[0] || x in s[1..];
        assert x in t <==> x == t[0] || x in t[1..];
      }
      IncreasingUnique(s[1..], t[1..]);
      assert s == [s[0]] + s[1..] && t == [t[0]] + t[1..];
    }
  }

  /** The first head is the least id. */
  lemma HeadIsLeast(listing: seq<seq<ClaimId>>, ids: set<ClaimId>, related: set<(ClaimId, ClaimId)>, x: ClaimId)
    requires Canonical(listing, ids, related) && x in ids
    ensures listing != [] && listing[0][0] <= x
  {
    assert Listed(listing, x);
    var c :| 0 <= c < |listing| && x in listing[c];
    var i :| 0 <= i < |listing[c]| && listing[c][i] == x;
    assert listing[c][0] <= x;
  }

  lemma FirstClusterUnique(a: seq<seq<ClaimId>>, b: seq<seq<ClaimId>>, ids: set<ClaimId>, related: set<(ClaimId, ClaimId)>)
    requires Canonical(a, ids, related) && Canonical(b, ids, related) && a != []
    ensures b != [] && a[0] == b[0]
  {
    assert a[0][0] in a[0];
    HeadIsLeast(b, ids, related, a[0][0]);
    assert b[0][0] in b[0];
    HeadIsLeast(a, ids, related, b[0][0]);
    var head := a[0][0];
    forall x
      ensures x in a[0] <==> x in b[0]
    {
      assert x in ids ==> (x in a[0] <==> (head, x) in related);
      assert x in ids ==> (x in b[0] <==> (head, x) in related);
    }
    IncreasingUnique(a[0], b[0]);
  }

  /** Clusters that share a member share the first one's head. */
  lemma SharedMember(a: seq<seq<ClaimId>>, ids: set<ClaimId>, related: set<(ClaimId, ClaimId)>, b: nat, c: nat, x: ClaimId)
    requires Canonical(a, ids, related) && b < |a| && c < |a| && x in a[b] && x in a[c]
    ensures a[b][0] in a[c]
  {
    var y := a[b][0];
    assert y in a[b];
    assert (x, y) in related;
  }

  lemma HeadBelow(s: seq<ClaimId>, x: ClaimId)
    requires Increasing(s) && x in s
    ensures s[0] <= x
  {
  }

  /** A member of a later cluster is not in the first. */
  lemma ClustersApart(a: seq<seq<ClaimId>>, ids: set<ClaimId>, related: set<(ClaimId, ClaimId)>, c: nat, x: ClaimId)
    requires Canonical(a, ids, related) && 0 < c < |a| && x in a[c]
    ensures x !in a[0]
  {
    if x in a[0] {
      SharedMember(a, ids, related, 0, c, x);
      HeadBelow(a[c], a[0][0]);
    }
  }

  lemma RestCanonical(a: seq<seq<ClaimId>>, ids: set<ClaimId>, related: set<(ClaimId, ClaimId)>)
    requires Canonical(a, ids, related) && a != []
    ensures Canonical(a[1..], ids - Elements(a[0]), related)
  {
    forall c, x | 0 <= c < |a[1..]| && x in a[1..][c]
      ensures x !in a[0]
    {
      assert x in a[c + 1];
      assert a[0][0] in a[0] && a[c + 1][0] in a[c + 1];
      ClustersApart(a, ids, related, c + 1, x);
    }
    forall x | x in ids - Elements(a[0])
      ensures Listed(a[1..], x)
    {
      assert Listed(a, x);
      var c :| 0 <= c < |a| && x in a[c];
      assert x in a[1..][c - 1];
    }
  }

  /** There is one canonical listing. */
  lemma {:induction false} CanonicalUnique(a: seq<seq<ClaimId>>, b: seq<seq<ClaimId>>, ids: set<ClaimId>, related: set<(ClaimId, ClaimId)>)
    requires Canonical(a, ids, related) && Canonical(b, ids, related)
    ensures a == b
  {
    if a == [] {
      if b != [] {
        FirstClusterUnique(b, a, ids, related);
      }
    } else {
      FirstClusterUnique(a, b, ids, related);
      RestCanonical(a, ids, related);
      RestCanonical(b, ids, related);
      CanonicalUnique(a[1..], b[1..], ids - Elements(a[0]), related);
      assert a == [a[0]] + a[1..] && b == [b[0]] + b[1..];
    }
  }

  /** Two ids are related when claims with those ids are connected by a chain of overlapping supports. */
  ghost predicate RelatedIds(claims: seq<Claim>, adjacency: Adjacency, radius: nat, x: ClaimId, y: ClaimId) {
    exists i, j :: 0 <= i < |claims| && 0 <= j < |claims| && claims[i].id == x && claims[j].id == y
                   && Connected(OverlapEdges(Supports(claims, adjacency, radius)), i, j)
  }

  ghost function Relation(claims: seq<Claim>, adjacency: Adjacency, radius: nat): set<(ClaimId, ClaimId)> {
    set x, y | x in Elements(Ids(claims)) && y in Elements(Ids(claims)) && RelatedIds(claims, adjacency, radius, x, y) :: (x, y)
  }

  /** The position in b of the claim at each position of a. */
  ghost predicate Maps(a: seq<Claim>, b: seq<Claim>, sigma: seq<nat>) {
    |sigma| == |a| && forall i :: 0 <= i < |a| ==> sigma[i] < |b| && b[sigma[i]] == a[i]
  }

  lemma {:induction false} PositionMap(a: seq<Claim>, b: seq<Claim>) returns (sigma: seq<nat>)
    requires forall x :: x in a ==> x in b
    ensures Maps(a, b, sigma)
  {
    if a == [] {
      sigma := [];
    } else {
      var rest := PositionMap(a[1..], b);
      assert a[0] in b;
      var i :| 0 <= i < |b| && b[i] == a[0];
      sigma := [i] + rest;
      assert forall k :: 1 <= k < |a| ==> a[k] == a[1..][k - 1];
    }
  }

  lemma StepMaps(a: seq<Claim>, b: seq<Claim>, sigma: seq<nat>, adjacency: Adjacency, radius: nat, i: nat, j: nat)
    requires Maps(a, b, sigma) && i < |a|
    requires Step(OverlapEdges(Supports(a, adjacency, radius)), i, j)
    ensures j < |a| && Step(OverlapEdges(Supports(b, adjacency, radius)), sigma[i], sigma[j])
  {
    if i != j {
      var s, t := Supports(a, adjacency, radius), Supports(b, adjacency, radius);
      var e := if (i, j) in OverlapEdges(s) then (i, j) else (j, i);
      var x := EdgeWitness(s, e);
      assert t[sigma[i]] == s[i] && t[sigma[j]] == s[j];
      WitnessEdge(t, sigma[i], sigma[j], x);
    }
  }

  lemma EdgeWitness(s: seq<set<Particle>>, e: Edge) returns (x: Particle)
    requires e in OverlapEdges(s)
    ensures e.0 < |s| && e.1 < |s| && x in s[e.0] && x in s[e.1]
  {
    x :| x in s[e.0] && x in s[e.1];
  }

  lemma WitnessEdge(s: seq<set<Particle>>, i: nat, j: nat, x: Particle)
    requires i < |s| && j < |s| && x in s[i] && x in s[j]
    ensures Step(OverlapEdges(s), i, j)
  {
    assert Overlap(s, i, j) && Overlap(s, j, i);
  }

  lemma {:induction false} ConnectionMaps(a: seq<Claim>, b: seq<Claim>, sigma: seq<nat>, adjacency: Adjacency, radius: nat, chain: seq<nat>)
    requires Maps(a, b, sigma) && chain != [] && chain[0] < |a|
    requires IsChain(OverlapEdges(Supports(a, adjacency, radius)), chain)
    ensures chain[|chain| - 1] < |a|
    ensures Connected(OverlapEdges(Supports(b, adjacency, radius)), sigma[chain[0]], sigma[chain[|chain| - 1]])
  {
    hide OverlapEdges;
    var e, f := OverlapEdges(Supports(a, adjacency, radius)), OverlapEdges(Supports(b, adjacency, radius));
    if |chain| == 1 {
      ConnectedRefl(f, sigma[chain[0]]);
    } else {
      assert Step(e, chain[0], chain[0 + 1]);
      StepMaps(a, b, sigma, adjacency, radius, chain[0], chain[1]);
      var rest := chain[1..];
      TailIsChain(e, chain);
      ConnectionMaps(a, b, sigma, adjacency, radius, rest);
      StepConnects(f, sigma[chain[0]], sigma[chain[1]]);
      ConnectedTrans(f, sigma[chain[0]], sigma[chain[1]], sigma[chain[|chain| - 1]]);
    }
  }

  lemma TailIsChain(edges: set<Edge>, chain: seq<nat>)
    requires |chain| > 1 && IsChain(edges, chain)
    ensures IsChain(edges, chain[1..])
  {
    var rest := chain[1..];
    forall i | 0 <= i < |rest| - 1
      ensures Step(edges, rest[i], rest[i + 1])
    {
      assert Step(edges, chain[i + 1], chain[i + 1 + 1]);
    }
  }

  lemma RelatedMaps(a: seq<Claim>, b: seq<Claim>, adjacency: Adjacency, radius: nat, x: ClaimId, y: ClaimId)
    requires (forall c :: c in a ==> c in b) && RelatedIds(a, adjacency, radius, x, y)
    ensures RelatedIds(b, adjacency, radius, x, y)
  {
    var sigma := PositionMap(a, b);
    var i, j :| 0 <= i < |a| && 0 <= j < |a| && a[i].id == x && a[j].id == y
                && Connected(OverlapEdges(Supports(a, adjacency, radius)), i, j);
    var chain :| chain != [] && chain[0] == i && chain[|chain| - 1] == j
                 && IsChain(OverlapEdges(Supports(a, adjacency, radius)), chain);
    ConnectionMaps(a, b, sigma, adjacency, radius, chain);
    assert b[sigma[i]].id == x && b[sigma[j]].id == y;
  }

  lemma SameRelation(a: seq<Claim>, b: seq<Claim>, adjacency: Adjacency, radius: nat)
    requires multiset(a) == multiset(b)
    ensures Elements(Ids(a)) == Elements(Ids(b)) && Relation(a, adjacency, radius) == Relation(b, adjacency, radius)
  {
    SameElements(a, b);
    forall x
      ensures x in Elements(Ids(a)) <==> x in Elements(Ids(b))
    {
      if x in Ids(a) {
        var i :| 0 <= i < |a| && Ids(a)[i] == x;
        assert a[i] in b;
        var j :| 0 <= j < |b| && b[j] == a[i];
        assert Ids(b)[j] == x;
      }
      if x in Ids(b) {
        var i :| 0 <= i < |b| && Ids(b)[i] == x;
        assert b[i] in a;
        var j :| 0 <= j < |a| && a[j] == b[i];
        assert Ids(a)[j] == x;
      }
    }
    forall x, y
      ensures RelatedIds(a, adjacency, radius, x, y) <==> RelatedIds(b, adjacency, radius, x, y)
    {
      if RelatedIds(a, adjacency, radius, x, y) { RelatedMaps(a, b, adjacency, radius, x, y); }
      if RelatedIds(b, adjacency, radius, x, y) { RelatedMaps(b, a, adjacency, radius, x, y); }
    }
  }

  ghost predicate DistinctIds(claims: seq<Claim>) {
    forall i, j :: 0 <= i < j < |claims| ==> claims[i].id != claims[j].id
  }

  lemma SameIdSameIndex(claims: seq<Claim>, i: nat, j: nat)
    requires DistinctIds(claims) && i < |claims| && j < |claims| && claims[i].id == claims[j].id
    ensures i == j
  {
  }

  lemma ListingInRange(listing: seq<seq<nat>>, keys: seq<ClaimId>, edges: set<Edge>, n: nat)
    requires IsListing(listing, keys, edges, n)
    ensures forall c, i :: 0 <= c < |listing| && 0 <= i < |listing[c]| ==> listing[c][i] < |keys|
  {
    forall c, i | 0 <= c < |listing| && 0 <= i < |listing[c]|
      ensures listing[c][i] < |keys|
    {
      assert listing[c][i] in listing[c];
    }
  }

  /** Membership of an id in a listed cluster is membership of its claim's index. */
  lemma IdMember(listing: seq<seq<nat>>, claims: seq<Claim>, edges: set<Edge>, c: nat, i: nat)
    requires IsListing(listing, Ids(claims), edges, |claims|) && DistinctIds(claims) && c < |listing| && i < |claims|
    ensures forall c, i :: 0 <= c < |listing| && 0 <= i < |listing[c]| ==> listing[c][i] < |Ids(claims)|
    ensures claims[i].id in IdListing(listing, Ids(claims))[c] <==> i in listing[c]
  {
    ListingInRange(listing, Ids(claims), edges, |claims|);
    var r := IdListing(listing, Ids(claims));
    if i in listing[c] {
      var k :| 0 <= k < |listing[c]| && listing[c][k] == i;
      assert r[c][k] == claims[i].id;
    }
    if claims[i].id in r[c] {
      var k :| 0 <= k < |r[c]| && r[c][k] == claims[i].id;
      var j := listing[c][k];
      assert claims[j].id == claims[i].id;
      SameIdSameIndex(claims, i, j);
    }
  }

  lemma IdOfMember(listing: seq<seq<nat>>, claims: seq<Claim>, edges: set<Edge>, c: nat, x: ClaimId) returns (i: nat)
    requires IsListing(listing, Ids(claims), edges, |claims|) && c < |listing|
    requires forall c, i :: 0 <= c < |listing| && 0 <= i < |listing[c]| ==> listing[c][i] < |Ids(claims)|
    requires x in IdListing(listing, Ids(claims))[c]
    ensures i < |claims| && claims[i].id == x && i in listing[c]
  {
    var r := IdListing(listing, Ids(claims));
    var k :| 0 <= k < |r[c]| && r[c][k] == x;
    i := listing[c][k];
  }

  lemma IdsIncrease(listing: seq<seq<nat>>, claims: seq<Claim>, edges: set<Edge>)
    requires IsListing(listing, Ids(claims), edges, |claims|) && DistinctIds(claims)
    ensures forall c, i :: 0 <= c < |listing| && 0 <= i < |listing[c]| ==> listing[c][i] < |Ids(claims)|
    ensures var r := IdListing(listing, Ids(claims));
            && (forall c :: 0 <= c < |r| ==> r[c] != [] && Increasing(r[c]))
            && (forall c, d :: 0 <= c < d < |r| ==> r[c][0] < r[d][0])
  {
    var keys := Ids(claims);
    ListingInRange(listing, keys, edges, |claims|);
    var r := IdListing(listing, keys);
    forall c, i, j | 0 <= c < |r| && 0 <= i < j < |r[c]|
      ensures r[c][i] < r[c][j]
    {
      var a, b := listing[c][i], listing[c][j];
      assert MemberOrder(keys)(a, b);
      assert a < b ==> claims[a].id != claims[b].id;
      assert b < a ==> claims[b].id != claims[a].id;
    }
    forall c, d | 0 <= c < d < |r|
      ensures r[c][0] < r[d][0]
    {
      var a, b := listing[c][0], listing[d][0];
      assert a in listing[c] && b in listing[d];
      assert HeadOrder(keys)(listing[c], listing[d]);
      assert a < b ==> claims[a].id != claims[b].id;
      assert b < a ==> claims[b].id != claims[a].id;
    }
  }

  /** Read as ids, a listing of claims with distinct ids is the canonical one of their relation. */
  lemma ListingIsCanonical(listing: seq<seq<nat>>, claims: seq<Claim>, adjacency: Adjacency, radius: nat)
    requires IsListing(listing, Ids(claims), OverlapEdges(Supports(claims, adjacency, radius)), |claims|) && DistinctIds(claims)
    ensures forall c, i :: 0 <= c < |listing| && 0 <= i < |listing[c]| ==> listing[c][i] < |Ids(claims)|
    ensures Canonical(IdListing(listing, Ids(claims)), Elements(Ids(claims)), Relation(claims, adjacency, radius))
  {
    var edges := OverlapEdges(Supports(claims, adjacency, radius));
    var keys, ids := Ids(claims), Elements(Ids(claims));
    IdsIncrease(listing, claims, edges);
    var r := IdListing(listing, keys);
    forall c, x | 0 <= c < |r| && x in r[c]
      ensures x in ids
    {
      var i := IdOfMember(listing, claims, edges, c, x);
      assert keys[i] == x;
    }
    forall x | x in ids
      ensures Listed(r, x)
    {
      var i :| 0 <= i < |keys| && keys[i] == x;
      assert Listed(listing, i);
      var c :| 0 <= c < |listing| && i in listing[c];
      IdMember(listing, claims, edges, c, i);
    }
    forall c, x, y | 0 <= c < |r| && x in r[c] && y in ids
      ensures y in r[c] <==> (x, y) in Relation(claims, adjacency, radius)
    {
      var i := IdOfMember(listing, claims, edges, c, x);
      var j :| 0 <= j < |keys| && keys[j] == y;
      IdMember(listing, claims, edges, c, j);
      assert keys[i] == x;
      RelatedIsConnected(claims, adjacency, radius, i, j);
    }
  }

  lemma RelatedIsConnected(claims: seq<Claim>, adjacency: Adjacency, radius: nat, i: nat, j: nat)
    requires DistinctIds(claims) && i < |claims| && j < |claims|
    ensures (claims[i].id, claims[j].id) in Relation(claims, adjacency, radius)
            <==> Connected(OverlapEdges(Supports(claims, adjacency, radius)), i, j)
  {
    var x, y := claims[i].id, claims[j].id;
    var keys := Ids(claims);
    assert keys[i] == x && keys[j] == y;
    assert forall a, b :: 0 <= a < |claims| && 0 <= b < |claims| && claims[a].id == x && claims[b].id == y ==> a == i && b == j by {
      forall a, b | 0 <= a < |claims| && 0 <= b < |claims| && claims[a].id == x && claims[b].id == y
        ensures a == i && b == j
      {
        SameIdSameIndex(claims, a, i);
        SameIdSameIndex(claims, b, j);
      }
    }
    assert RelatedIds(claims, adjacency, radius, x, y) <==> Connected(OverlapEdges(Supports(claims, adjacency, radius)), i, j);
  }

  /** Whatever order the claims arrive in, the clusters read as ids are the same list of lists. */
  lemma ListingIgnoresOrder(a: seq<Claim>, b: seq<Claim>, adjacency: Adjacency, radius: nat, la: seq<seq<nat>>, lb: seq<seq<nat>>)
    requires multiset(a) == multiset(b) && DistinctIds(a) && DistinctIds(b)
    requires IsListing(la, Ids(a), OverlapEdges(Supports(a, adjacency, radius)), |a|)
    requires IsListing(lb, Ids(b), OverlapEdges(Supports(b, adjacency, radius)), |b|)
    ensures forall c, i :: 0 <= c < |la| && 0 <= i < |la[c]| ==> la[c][i] < |Ids(a)|
    ensures forall c, i :: 0 <= c < |lb| && 0 <= i < |lb[c]| ==> lb[c][i] < |Ids(b)|
    ensures IdListing(la, Ids(a)) == IdListing(lb, Ids(b))
  {
    ListingIsCanonical(la, a, adjacency, radius);
    ListingIsCanonical(lb, b, adjacency, radius);
    SameRelation(a, b, adjacency, radius);
    CanonicalUnique(IdListing(la, Ids(a)), IdListing(lb, Ids(b)), Elements(Ids(a)), Relation(a, adjacency, radius));
  }

  // ---------- a larger radius only coarsens ----------

  lemma LargerSupports(claims: seq<Claim>, adjacency: Adjacency, r: nat, s: nat)
    requires r <= s
    ensures OverlapEdges(Supports(claims, adjacency, r)) <= OverlapEdges(Supports(claims, adjacency, s))
  {
    var x, y := Supports(claims, adjacency, r), Supports(claims, adjacency, s);
    forall e | e in OverlapEdges(x)
      ensures e in OverlapEdges(y)
    {
      var p := EdgeWitness(x, e);
      BallGrows(ClaimParticles(claims[e.0]), adjacency, r, s);
      BallGrows(ClaimParticles(claims[e.1]), adjacency, r, s);
      assert Overlap(y, e.0, e.1);
    }
  }

  /** Claims clustered together at one radius stay together at any larger one. */
  lemma LargerRadiusCoarsens(claims: seq<Claim>, adjacency: Adjacency, r: nat, s: nat, lr: seq<seq<nat>>, ls: seq<seq<nat>>,
                             c: nat, d: nat, x: nat, y: nat)
    requires r <= s
    requires IsListing(lr, Ids(claims), OverlapEdges(Supports(claims, adjacency, r)), |claims|)
    requires IsListing(ls, Ids(claims), OverlapEdges(Supports(claims, adjacency, s)), |claims|)
    requires c < |lr| && d < |ls| && x in lr[c] && y in lr[c] && x in ls[d]
    ensures y in ls[d]
  {
    LargerSupports(claims, adjacency, r, s);
    ConnectedMonotone(OverlapEdges(Supports(claims, adjacency, r)), OverlapEdges(Supports(claims, adjacency, s)), x, y);
  }
}
