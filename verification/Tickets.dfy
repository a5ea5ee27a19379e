/** Settlement tickets and the fold-mining accumulator (src/tickets.rs:278-546, src/ticket_proof.rs:162-207): absorbing
    samples, folding accumulators pairwise up a tree, and why the root is the same sum of the same samples however the
    tree was assembled. Hash scores are arbitrary functions; the proof system is left out. */
module Tickets {
  import opened Sequences
  import opened Numbers
  import opened Goldilocks
  import opened Permutations
  import opened Settlement
  import opened Words
  import Bytes

  datatype SampleId = SampleId(miner: seq<Bytes.Byte>, nonce: nat)

  datatype Ticket = Ticket(id: SampleId, marginals: seq<Element>, score: nat)

  datatype Acc = Acc(sumM: seq<Element>, k: nat, seen: set<SampleId>, commitment: seq<Bytes.Byte>)

  /** The hash of an accumulator's contents. */
  type AccHash = (seq<Element>, nat, set<SampleId>) -> seq<Bytes.Byte>

  function EmptyAcc(n: nat): Acc {
    Acc(ZeroElements(n), 0, {}, Bytes.ZeroBytes(32))
  }

  function AddSums(a: seq<Element>, b: seq<Element>): (s: seq<Element>)
    requires |a| == |b|
    ensures |s| == |a| && forall i :: 0 <= i < |s| ==> s[i] == Add(a[i], b[i])
  {
    seq(|a|, i requires 0 <= i < |a| => Add(a[i], b[i]))
  }

  // ---------- absorbing tickets ----------

  function Absorb(acc: Acc, t: Ticket, h: AccHash): Acc {
    if t.id in acc.seen then acc
    else
      var seen := acc.seen + {t.id};
      if |acc.sumM| != |t.marginals| && acc.k != 0 then acc.(seen := seen)
      else
        var base := if |acc.sumM| != |t.marginals| then ZeroElements(|t.marginals|) else acc.sumM;
        var sums, k := AddSums(base, t.marginals), SaturatingAdd(acc.k, 1);
        Acc(sums, k, seen, h(sums, k, seen))
  }

  function SelfFold(n: nat, tickets: seq<Ticket>, h: AccHash): Acc {
    if tickets == [] then EmptyAcc(n)
    else Absorb(SelfFold(n, tickets[..|tickets| - 1], h), tickets[|tickets| - 1], h)
  }

  method SelfFoldLoop(n: nat, tickets: seq<Ticket>, h: AccHash) returns (acc: Acc)
    ensures acc == SelfFold(n, tickets, h)
  {
    acc := EmptyAcc(n);
    var i := 0;
    while i < |tickets|
      invariant 0 <= i <= |tickets|
      invariant acc == SelfFold(n, tickets[..i], h)
    {
      assert tickets[..i + 1][..i] == tickets[..i];
      acc := Absorb(acc, tickets[i], h);
      i := i + 1;
    }
    assert tickets[..i] == tickets;
  }

  function Ids(tickets: seq<Ticket>): set<SampleId> {
    set i | 0 <= i < |tickets| :: tickets[i].id
  }

  /** The tickets that count: the first with each id. */
  function FirstOfEach(tickets: seq<Ticket>): seq<Ticket> {
    if tickets == [] then []
    else
      var rest, t := tickets[..|tickets| - 1], tickets[|tickets| - 1];
      if t.id in Ids(rest) then FirstOfEach(rest) else FirstOfEach(rest) + [t]
  }

  function MarginalColumn(i: nat): Ticket -> int {
    (t: Ticket) => if i < |t.marginals| then t.marginals[i] else 0
  }

  ghost predicate OfDimension(tickets: seq<Ticket>, n: nat) {
    forall j :: 0 <= j < |tickets| ==> |tickets[j].marginals| == n
  }

  /** A self-fold counts each id once: its ids, their number, and the sum of the first ticket with each. */
  lemma {:induction false} SelfFoldCounts(n: nat, tickets: seq<Ticket>, h: AccHash)
    requires OfDimension(tickets, n) && |tickets| <= U64_MAX
    ensures var acc := SelfFold(n, tickets, h);
            acc.seen == Ids(tickets) && acc.k == |acc.seen| <= |tickets| && |acc.sumM| == n
    ensures var acc := SelfFold(n, tickets, h);
            |acc.sumM| == n && forall i :: 0 <= i < n ==> acc.sumM[i] == Reduce(SumBy(MarginalColumn(i), FirstOfEach(tickets)))
  {
    if tickets == [] {
      NothingFolded(n, h);
    } else {
      hide SumBy, Reduce, Absorb;
      var rest, t := tickets[..|tickets| - 1], tickets[|tickets| - 1];
      SelfFoldCounts(n, rest, h);
      IdsSnoc(tickets);
      hide Ids;
      AbsorbIs(SelfFold(n, rest, h), t, h);
      if t.id !in Ids(rest) {
        forall i | 0 <= i < n
          ensures SelfFold(n, tickets, h).sumM[i] == Reduce(SumBy(MarginalColumn(i), FirstOfEach(tickets)))
        {
          OneMoreMarginal(FirstOfEach(rest), t, i);
        }
      } else {
        assert Ids(tickets) == Ids(rest);
      }
    }
  }

  lemma NothingFolded(n: nat, h: AccHash)
    ensures var acc := SelfFold(n, [], h);
            && acc.seen == Ids([]) && acc.k == 0 == |acc.seen| && |acc.sumM| == n
            && forall i :: 0 <= i < n ==> acc.sumM[i] == Reduce(SumBy(MarginalColumn(i), FirstOfEach([])))
  {
    ReduceFixed(0);
  }

  /** Absorbing a sample of the right dimension adds its marginals, unless it was seen. */
  lemma AbsorbIs(acc: Acc, t: Ticket, h: AccHash)
    requires |acc.sumM| == |t.marginals| && acc.k < U64_MAX && acc.k == |acc.seen|
    ensures t.id in acc.seen ==> Absorb(acc, t, h) == acc
    ensures t.id !in acc.seen ==>
      var r := Absorb(acc, t, h);
      r.sumM == AddSums(acc.sumM, t.marginals) && r.k == acc.k + 1 == |r.seen| && r.seen == acc.seen + {t.id}
  {
  }

  lemma OneMoreMarginal(firsts: seq<Ticket>, t: Ticket, i: nat)
    requires i < |t.marginals|
    ensures Add(Reduce(SumBy(MarginalColumn(i), firsts)), t.marginals[i]) == Reduce(SumBy(MarginalColumn(i), firsts + [t]))
  {
    SumByAppend(MarginalColumn(i), firsts, [t]);
    SumBySingle(MarginalColumn(i), t);
    hide SumBy, Reduce;
    ReduceFixed(t.marginals[i]);
    AddReduce(SumBy(MarginalColumn(i), firsts), t.marginals[i]);
  }


  lemma IdsSnoc(tickets: seq<Ticket>)
    requires tickets != []
    ensures Ids(tickets) == Ids(tickets[..|tickets| - 1]) + {tickets[|tickets| - 1].id}
  {
    var rest := tickets[..|tickets| - 1];
    forall x
      ensures x in Ids(tickets) <==> x in Ids(rest) || x == tickets[|tickets| - 1].id
    {
      if x in Ids(tickets) {
        var i :| 0 <= i < |tickets| && tickets[i].id == x;
        assert i < |rest| ==> rest[i].id == x;
      }
      if x in Ids(rest) {
        var i :| 0 <= i < |rest| && rest[i].id == x;
        assert tickets[i].id == x;
      }
    }
  }

  // ---------- folding two accumulators ----------

  function Fold(left: Acc, right: Acc, h: AccHash): Acc {
    var seen := left.seen + right.seen;
    if |left.sumM| == |right.sumM| then
      var inter := |left.seen * right.seen|;
      var sums := AddSums(left.sumM, right.sumM);
      var k := if inter == 0 then SaturatingAdd(left.k, right.k) else |seen|;
      Acc(sums, k, seen, h(sums, k, seen))
    else
      var side := if left.k >= right.k then left else right;
      Acc(side.sumM, |seen|, seen, h(side.sumM, |seen|, seen))
  }

  method AddSumsLoop(a: seq<Element>, b: seq<Element>) returns (s: seq<Element>)
    requires |a| == |b|
    ensures s == AddSums(a, b)
  {
    var out := new Element[|a|](_ => 0);
    var i := 0;
    while i < |a|
      invariant 0 <= i <= |a|
      invariant forall j :: 0 <= j < i ==> out[j] == Add(a[j], b[j])
    {
      out[i] := Add(a[i], b[i]);
      i := i + 1;
    }
    s := out[..];
  }

  /** Folds two accumulators: the union of the samples, and the sums added where the dimensions agree. */
  method FoldAcc(left: Acc, right: Acc, h: AccHash) returns (out: Acc)
    ensures out == Fold(left, right, h)
  {
    if |left.sumM| == |right.sumM| {
      var sums := AddSumsLoop(left.sumM, right.sumM);
      var seen := left.seen + right.seen;
      var k := if |left.seen * right.seen| == 0 then SaturatingAdd(left.k, right.k) else |seen|;
      out := Acc(sums, k, seen, h(sums, k, seen));
    } else if left.k >= right.k {
      var seen := left.seen + right.seen;
      out := Acc(left.sumM, |seen|, seen, h(left.sumM, |seen|, seen));
    } else {
      var seen := right.seen + left.seen;
      assert seen == left.seen + right.seen;
      out := Acc(right.sumM, |seen|, seen, h(right.sumM, |seen|, seen));
    }
  }

  datatype Checked = Folded(acc: Acc) | NonDisjoint(overlap: nat)

  function FoldChecked(left: Acc, right: Acc, h: AccHash): (r: Checked)
    ensures r.Folded? <==> left.seen !! right.seen
    ensures r.Folded? ==> r.acc == Fold(left, right, h)
    ensures r.NonDisjoint? ==> r.overlap == |left.seen * right.seen| > 0
  {
    var inter := |left.seen * right.seen|;
    assert inter == 0 <==> left.seen * right.seen == {};
    assert left.seen !! right.seen <==> left.seen * right.seen == {} by {
      if left.seen !! right.seen { assert left.seen * right.seen == {}; }
      if left.seen * right.seen == {} {
        forall x | x in left.seen ensures x !in right.seen { assert x in right.seen ==> x in left.seen * right.seen; }
      }
    }
    assert left.seen + right.seen == right.seen + left.seen;
    if inter > 0 then NonDisjoint(inter)
    else if |left.sumM| == |right.sumM| then
      var seen := left.seen + right.seen;
      var sums, k := AddSums(left.sumM, right.sumM), SaturatingAdd(left.k, right.k);
      Folded(Acc(sums, k, seen, h(sums, k, seen)))
    else
      var side := if left.k >= right.k then left else right;
      var seen := if left.k >= right.k then left.seen + right.seen else right.seen + left.seen;
      Folded(Acc(side.sumM, |seen|, seen, h(side.sumM, |seen|, seen)))
  }

  // ---------- the fold lottery ----------

  /** The win-test hash of one attempt: level, the two sides' commitments, nonce and the result's commitment. */
  type FoldScore = (nat, seq<Bytes.Byte>, seq<Bytes.Byte>, nat, seq<Bytes.Byte>) -> nat

  datatype FoldWin = Won(result: Acc, nonce: nat, score: nat) | Exhausted

  method GrindFold(level: nat, left: Acc, right: Acc, startNonce: nat, maxAttempts: nat, target: nat, h: AccHash, score: FoldScore)
    returns (r: FoldWin)
    ensures r.Won? ==> exists i :: 0 <= i < maxAttempts && r.nonce == SaturatingAdd(startNonce, i) && forall j :: 0 <= j < i ==>
              score(level, left.commitment, right.commitment, SaturatingAdd(startNonce, j), Fold(left, right, h).commitment) >= target
    ensures r.Won? ==> r.result == Fold(left, right, h) && r.score < target
                       && r.score == score(level, left.commitment, right.commitment, r.nonce, r.result.commitment)
    ensures r.Exhausted? ==> forall i :: 0 <= i < maxAttempts ==>
              score(level, left.commitment, right.commitment, SaturatingAdd(startNonce, i), Fold(left, right, h).commitment) >= target
  {
    var i := 0;
    while i < maxAttempts
      invariant 0 <= i <= maxAttempts
      invariant forall j :: 0 <= j < i ==>
                  score(level, left.commitment, right.commitment, SaturatingAdd(startNonce, j), Fold(left, right, h).commitment) >= target
    {
      var nonce := SaturatingAdd(startNonce, i);
      var result := FoldAcc(left, right, h);
      var s := score(level, left.commitment, right.commitment, nonce, result.commitment);
      if s < target {
        return Won(result, nonce, s);
      }
      i := i + 1;
    }
    return Exhausted;
  }

  // ---------- the fold tree ----------

  /** One level: neighbours folded, an odd one out carried up. */
  function FoldLevel(level: seq<Acc>, h: AccHash): (next: seq<Acc>)
    ensures |next| == (|level| + 1) / 2
  {
    if |level| <= 1 then level else [Fold(level[0], level[1], h)] + FoldLevel(level[2..], h)
  }

  function FoldTree(leaves: seq<Acc>, h: AccHash): Acc
    decreases |leaves|
  {
    if leaves == [] then EmptyAcc(0)
    else if |leaves| == 1 then leaves[0]
    else FoldTree(FoldLevel(leaves, h), h)
  }

  lemma LevelFrom(level: seq<Acc>, i: nat, h: AccHash)
    requires i < |level|
    ensures i + 1 >= |level| ==> FoldLevel(level[i..], h) == [level[i]]
    ensures i + 1 < |level| ==> FoldLevel(level[i..], h) == [Fold(level[i], level[i + 1], h)] + FoldLevel(level[i + 2..], h)
    ensures FoldLevel([], h) == []
  {
    hide Fold;
    if i + 1 < |level| {
      assert level[i..][2..] == level[i + 2..];
    }
  }

  method AssembleLevel(lvl: nat, level: seq<Acc>, target: nat, h: AccHash, score: FoldScore) returns (next: seq<Acc>)
    ensures next == FoldLevel(level, h)
  {
    hide Fold, FoldLevel;
    next := [];
    var i := 0;
    assert level[0..] == level;
    while i < |level|
      invariant 0 <= i <= |level|
      invariant FoldLevel(level, h) == next + FoldLevel(level[i..], h)
    {
      LevelFrom(level, i, h);
      if i + 1 >= |level| {
        next := next + [level[i]];
        break;
      }
      var win := GrindFold(lvl, level[i], level[i + 1], 0, 64, target, h, score);
      var folded: Acc;
      if win.Won? {
        folded := win.result;
      } else {
        folded := FoldAcc(level[i], level[i + 1], h);
      }
      next := next + [folded];
      i := i + 2;
    }
  }

  /** The lottery decides who is paid for a fold, never what the fold is. */
  method AssembleFoldTree(leaves: seq<Acc>, target: nat, h: AccHash, score: FoldScore) returns (root: Acc)
    ensures root == FoldTree(leaves, h)
  {
    if leaves == [] {
      return EmptyAcc(0);
    }
    var level := leaves;
    var lvl := 0;
    while |level| > 1
      invariant level != [] && FoldTree(level, h) == FoldTree(leaves, h)
      decreases |level|
    {
      level := AssembleLevel(lvl, level, target, h, score);
      lvl := lvl + 1;
    }
    return level[0];
  }

  datatype ProvenRoot = Proven(root: Acc, samples: nat) | NoLeaves

  method MergeLevel(level: seq<Acc>, h: AccHash) returns (next: seq<Acc>)
    ensures next == FoldLevel(level, h)
  {
    hide Fold, FoldLevel;
    next := [];
    var i := 0;
    assert level[0..] == level;
    while i < |level|
      invariant 0 <= i <= |level|
      invariant FoldLevel(level, h) == next + FoldLevel(level[i..], h)
    {
      LevelFrom(level, i, h);
      if i + 1 >= |level| {
        next := next + [level[i]];
        break;
      }
      var result := FoldAcc(level[i], level[i + 1], h);
      next := next + [result];
      i := i + 2;
    }
  }

  /** The merge loop of the prover: the same root, with no lottery in it. */
  method ProveFoldTree(leaves: seq<Acc>, h: AccHash) returns (r: ProvenRoot)
    ensures r == if leaves == [] then NoLeaves else Proven(FoldTree(leaves, h), FoldTree(leaves, h).k)
  {
    if leaves == [] {
      return NoLeaves;
    }
    var level := leaves;
    while |level| > 1
      invariant level != [] && FoldTree(level, h) == FoldTree(leaves, h)
      decreases |level|
    {
      level := MergeLevel(level, h);
    }
    return Proven(level[0], level[0].k);
  }

  // ---------- what the root is ----------

  ghost predicate Disjoint(leaves: seq<Acc>) {
    forall i, j :: 0 <= i < j < |leaves| ==> leaves[i].seen !! leaves[j].seen
  }

  /** Accumulators of n contributors that count their ids. */
  ghost predicate Counted(leaves: seq<Acc>, n: nat) {
    forall i :: 0 <= i < |leaves| ==> |leaves[i].sumM| == n && leaves[i].k == |leaves[i].seen|
  }

  function SampleCount(leaves: seq<Acc>): nat {
    if leaves == [] then 0 else leaves[0].k + SampleCount(leaves[1..])
  }

  function AllSeen(leaves: seq<Acc>): set<SampleId> {
    if leaves == [] then {} else leaves[0].seen + AllSeen(leaves[1..])
  }

  function SumColumn(i: nat): Acc -> int {
    (a: Acc) => if i < |a.sumM| then a.sumM[i] else 0
  }

  lemma {:induction false} SeenBySome(leaves: seq<Acc>, x: SampleId)
    ensures x in AllSeen(leaves) <==> exists i :: 0 <= i < |leaves| && x in leaves[i].seen
  {
    if leaves != [] {
      SeenBySome(leaves[1..], x);
      if x in AllSeen(leaves[1..]) {
        var i :| 0 <= i < |leaves[1..]| && x in leaves[1..][i].seen;
        assert x in leaves[i + 1].seen;
      }
      if exists i :: 0 <= i < |leaves| && x in leaves[i].seen {
        var i :| 0 <= i < |leaves| && x in leaves[i].seen;
        assert i > 0 ==> x in leaves[1..][i - 1].seen;
      }
    }
  }

  /** Two disjoint accumulators of the same dimension fold to their union and their sum. */
  lemma FoldOfTwo(a: Acc, b: Acc, n: nat, h: AccHash)
    requires |a.sumM| == |b.sumM| == n && a.k == |a.seen| && b.k == |b.seen| && a.seen !! b.seen && a.k + b.k <= U64_MAX
    ensures var f := Fold(a, b, h);
            && f.sumM == AddSums(a.sumM, b.sumM) && f.seen == a.seen + b.seen && f.k == a.k + b.k == |f.seen|
            && f.commitment == h(f.sumM, f.k, f.seen)
  {
    assert a.seen * b.seen == {};
    assert |a.seen + b.seen| == |a.seen| + |b.seen|;
  }

  lemma DisjointFromAll(seen: set<SampleId>, leaves: seq<Acc>)
    requires forall i :: 0 <= i < |leaves| ==> seen !! leaves[i].seen
    ensures seen !! AllSeen(leaves)
  {
    forall x | x in AllSeen(leaves)
      ensures x !in seen
    {
      SeenBySome(leaves, x);
    }
  }

  lemma DisjointFromEach(seen: set<SampleId>, leaves: seq<Acc>)
    requires seen !! AllSeen(leaves)
    ensures forall i :: 0 <= i < |leaves| ==> seen !! leaves[i].seen
  {
    forall i, x | 0 <= i < |leaves| && x in leaves[i].seen
      ensures x !in seen
    {
      SeenBySome(leaves, x);
    }
  }

  lemma DisjointCons(a: Acc, leaves: seq<Acc>)
    requires Disjoint(leaves) && forall i :: 0 <= i < |leaves| ==> a.seen !! leaves[i].seen
    ensures Disjoint([a] + leaves)
  {
  }

  lemma CountedCons(a: Acc, leaves: seq<Acc>, n: nat)
    requires Counted(leaves, n) && |a.sumM| == n && a.k == |a.seen|
    ensures Counted([a] + leaves, n)
  {
  }

  lemma CountsCons(a: Acc, leaves: seq<Acc>)
    ensures AllSeen([a] + leaves) == a.seen + AllSeen(leaves) && SampleCount([a] + leaves) == a.k + SampleCount(leaves)
  {
    assert ([a] + leaves)[1..] == leaves;
  }

  /** A level keeps the dimensions, the disjointness, the number of samples and their ids. */
  lemma {:induction false} LevelKeeps(level: seq<Acc>, n: nat, h: AccHash)
    requires Counted(level, n) && Disjoint(level) && SampleCount(level) <= U64_MAX
    ensures Counted(FoldLevel(level, h), n) && Disjoint(FoldLevel(level, h))
    ensures SampleCount(FoldLevel(level, h)) == SampleCount(level)
    ensures AllSeen(FoldLevel(level, h)) == AllSeen(level)
  {
    SmallLevel(level, h);
    if |level| > 1 {
      hide Fold, FoldLevel, Counted, Disjoint, AllSeen, SampleCount;
      var a, b, rest := level[0], level[1], level[2..];
      LevelParts(level, n);
      LevelKeeps(rest, n, h);
      FoldOfTwo(a, b, n, h);
      var f, next := Fold(a, b, h), FoldLevel(rest, h);
      LevelIs(level, h);
      DisjointFromEach(f.seen, next);
      DisjointCons(f, next);
      CountedCons(f, next, n);
      CountsCons(f, next);
    }
  }

  /** What the first two accumulators of a level and the rest have to do with the level. */
  lemma LevelParts(level: seq<Acc>, n: nat)
    requires |level| > 1 && Counted(level, n) && Disjoint(level)
    ensures var (a, b, rest) := (level[0], level[1], level[2..]);
            && Counted(rest, n) && Disjoint(rest)
            && |a.sumM| == |b.sumM| == n && a.k == |a.seen| && b.k == |b.seen| && a.seen !! b.seen
            && AllSeen(level) == (a.seen + b.seen) + AllSeen(rest)
            && SampleCount(level) == a.k + b.k + SampleCount(rest)
            && (a.seen + b.seen) !! AllSeen(rest)
  {
    var a, b, rest := level[0], level[1], level[2..];
    RestOfLevel(level, n);
    LevelSums(level);
    hide Counted, Disjoint, AllSeen, SampleCount;
    DisjointFromAll(a.seen, rest);
    DisjointFromAll(b.seen, rest);
    UnionFacts(a.seen, b.seen, AllSeen(rest));
  }

  lemma UnionFacts(a: set<SampleId>, b: set<SampleId>, c: set<SampleId>)
    requires a !! c && b !! c
    ensures a + (b + c) == (a + b) + c && (a + b) !! c
  {
  }

  lemma RestOfLevel(level: seq<Acc>, n: nat)
    requires |level| > 1 && Counted(level, n) && Disjoint(level)
    ensures Counted(level[2..], n) && Disjoint(level[2..]) && level[0].seen !! level[1].seen
    ensures |level[0].sumM| == |level[1].sumM| == n && level[0].k == |level[0].seen| && level[1].k == |level[1].seen|
    ensures forall i :: 0 <= i < |level[2..]| ==> level[0].seen !! level[2..][i].seen && level[1].seen !! level[2..][i].seen
  {
    assert forall i :: 0 <= i < |level[2..]| ==> level[2..][i] == level[i + 2];
  }

  lemma LevelSums(level: seq<Acc>)
    requires |level| > 1
    ensures AllSeen(level) == level[0].seen + (level[1].seen + AllSeen(level[2..]))
    ensures SampleCount(level) == level[0].k + level[1].k + SampleCount(level[2..])
  {
    assert level[1..][1..] == level[2..];
  }

  lemma SmallLevel(level: seq<Acc>, h: AccHash)
    ensures |level| <= 1 ==> FoldLevel(level, h) == level
  {
  }

  lemma LevelIs(level: seq<Acc>, h: AccHash)
    requires |level| > 1
    ensures FoldLevel(level, h) == [Fold(level[0], level[1], h)] + FoldLevel(level[2..], h)
  {
  }

  lemma FoldedColumn(f: Acc, a: Acc, b: Acc, next: seq<Acc>, rest: seq<Acc>, i: nat)
    requires |a.sumM| == |b.sumM| && f.sumM == AddSums(a.sumM, b.sumM) && i < |a.sumM|
    requires Cong(SumBy(SumColumn(i), next), SumBy(SumColumn(i), rest), P)
    ensures Cong(SumBy(SumColumn(i), [f] + next), SumBy(SumColumn(i), [a, b] + rest), P)
  {
    hide Cong;
    assert ([f] + next)[1..] == next && ([a, b] + rest)[1..] == [b] + rest && ([b] + rest)[1..] == rest;
    CongMod(a.sumM[i] as int + b.sumM[i] as int, P);
    CongAdd(f.sumM[i], a.sumM[i] as int + b.sumM[i] as int,
            SumBy(SumColumn(i), next), SumBy(SumColumn(i), rest), P);
  }

  lemma {:induction false} LevelKeepsSums(level: seq<Acc>, n: nat, h: AccHash, i: nat)
    requires Counted(level, n) && Disjoint(level) && SampleCount(level) <= U64_MAX && i < n
    ensures Cong(SumBy(SumColumn(i), FoldLevel(level, h)), SumBy(SumColumn(i), level), P)
  {
    if |level| <= 1 {
      CongRefl(SumBy(SumColumn(i), level), P);
    } else {
      var rest := level[2..];
      LevelParts(level, n);
      FoldOfTwo(level[0], level[1], n, h);
      LevelIs(level, h);
      hide *;
      LevelKeepsSums(rest, n, h, i);
      var f := Fold(level[0], level[1], h);
      FoldedColumn(f, level[0], level[1], FoldLevel(rest, h), rest, i);
      assert [level[0], level[1]] + rest == level;
    }
  }

  /** The root of any assembled tree over disjoint accumulators: every sample once, every marginal summed. */
  lemma {:induction false} RootIsTotal(leaves: seq<Acc>, n: nat, h: AccHash)
    requires leaves != [] && Counted(leaves, n) && Disjoint(leaves) && SampleCount(leaves) <= U64_MAX
    ensures var root := FoldTree(leaves, h);
            && root.seen == AllSeen(leaves) && root.k == SampleCount(leaves) == |root.seen| && |root.sumM| == n
            && forall i :: 0 <= i < n ==> root.sumM[i] == Reduce(SumBy(SumColumn(i), leaves))
    decreases |leaves|
  {
    if |leaves| == 1 {
      assert leaves[1..] == [];
      forall i | 0 <= i < n
        ensures leaves[0].sumM[i] == Reduce(SumBy(SumColumn(i), leaves))
      {
        assert leaves == [leaves[0]];
        SumBySingle(SumColumn(i), leaves[0]);
        ReduceFixed(leaves[0].sumM[i]);
      }
    } else {
      var next := FoldLevel(leaves, h);
      LevelKeeps(leaves, n, h);
      RootIsTotal(next, n, h);
      forall i | 0 <= i < n
        ensures Reduce(SumBy(SumColumn(i), next)) == Reduce(SumBy(SumColumn(i), leaves))
      {
        LevelKeepsSums(leaves, n, h, i);
        CongSameMod(SumBy(SumColumn(i), next), SumBy(SumColumn(i), leaves), P);
      }
    }
  }

  /** With two leaves or more the root carries the hash of its own contents. */
  lemma {:induction false} RootCommitment(leaves: seq<Acc>, n: nat, h: AccHash)
    requires |leaves| >= 2 && Counted(leaves, n) && Disjoint(leaves) && SampleCount(leaves) <= U64_MAX
    ensures var root := FoldTree(leaves, h); root.commitment == h(root.sumM, root.k, root.seen)
    decreases |leaves|
  {
    var next := FoldLevel(leaves, h);
    LevelKeeps(leaves, n, h);
    if |leaves| == 2 {
      FoldOfTwo(leaves[0], leaves[1], n, h);
      assert leaves[2..] == [];
      assert next == [Fold(leaves[0], leaves[1], h)];
    } else {
      RootCommitment(next, n, h);
    }
  }

  lemma {:induction false} SampleCountIsSum(leaves: seq<Acc>)
    ensures SampleCount(leaves) == SumBy((a: Acc) => a.k, leaves)
  {
    if leaves != [] {
      SampleCountIsSum(leaves[1..]);
    }
  }

  lemma RearrangedLeaves(a: seq<Acc>, b: seq<Acc>, n: nat)
    requires multiset(a) == multiset(b) && Counted(a, n)
    ensures |a| == |b| && Counted(b, n) && SampleCount(a) == SampleCount(b) && AllSeen(a) == AllSeen(b)
  {
    assert |multiset(a)| == |a| && |multiset(b)| == |b|;
    forall i | 0 <= i < |b|
      ensures b[i] in a
    {
      assert b[i] in multiset(a);
    }
    assert forall i :: 0 <= i < |a| ==> a[i] in multiset(b);
    SampleCountIsSum(a);
    SampleCountIsSum(b);
    SumByRearrangement((x: Acc) => x.k, a, b);
    forall x
      ensures x in AllSeen(a) <==> x in AllSeen(b)
    {
      SeenBySome(a, x);
      SeenBySome(b, x);
      if x in AllSeen(a) {
        var i :| 0 <= i < |a| && x in a[i].seen;
        assert a[i] in b;
      }
      if x in AllSeen(b) {
        var i :| 0 <= i < |b| && x in b[i].seen;
        assert b[i] in a;
      }
    }
  }

  /** The whole root, commitment included, is the same for every order of the leaves. */
  lemma RootIgnoresLeafOrder(a: seq<Acc>, b: seq<Acc>, n: nat, h: AccHash)
    requires a != [] && multiset(a) == multiset(b)
    requires Counted(a, n) && Disjoint(a) && Disjoint(b) && SampleCount(a) <= U64_MAX
    ensures FoldTree(a, h) == FoldTree(b, h)
  {
    RearrangedLeaves(a, b, n);
    if |a| == 1 {
      assert a[0] in multiset(b);
    } else {
      RootCommitment(a, n, h);
      RootCommitment(b, n, h);
      hide FoldTree, Counted, Disjoint;
      RootIsTotal(a, n, h);
      RootIsTotal(b, n, h);
      forall i | 0 <= i < n
        ensures FoldTree(a, h).sumM[i] == FoldTree(b, h).sumM[i]
      {
        SumByRearrangement(SumColumn(i), a, b);
      }
      assert FoldTree(a, h).sumM == FoldTree(b, h).sumM;
    }
  }

  // ---------- value is conserved ----------

  /** The sums over contributors account for k times the value of everyone. */
  ghost predicate Balanced(acc: Acc, value: Element) {
    Cong(Sum(acc.sumM), acc.k * value, P)
  }

  lemma {:induction false} SumOfZeros(n: nat)
    ensures Sum(ZeroElements(n)) == 0
  {
    if n != 0 {
      SumOfZeros(n - 1);
      assert ZeroElements(n)[1..] == ZeroElements(n - 1);
    }
  }

  lemma {:induction false} SumOfAddSums(a: seq<Element>, b: seq<Element>)
    requires |a| == |b|
    ensures Cong(Sum(AddSums(a, b)), Sum(a) + Sum(b), P)
  {
    if a == [] {
      CongRefl(0, P);
    } else {
      var sums, rest := AddSums(a, b), AddSums(a[1..], b[1..]);
      assert sums[1..] == rest;
      assert sums[0] == Add(a[0], b[0]) == (a[0] as int + b[0] as int) % P;
      assert Sum(sums) == sums[0] + Sum(rest) && Sum(a) == a[0] + Sum(a[1..]) && Sum(b) == b[0] + Sum(b[1..]);
      CongMod(a[0] as int + b[0] as int, P);
      hide *;
      SumOfAddSums(a[1..], b[1..]);
      CongAdd(sums[0], a[0] as int + b[0] as int, Sum(rest), Sum(a[1..]) + Sum(b[1..]), P);
    }
  }

  lemma AbsorbBalanced(acc: Acc, t: Ticket, n: nat, value: Element, h: AccHash)
    requires |acc.sumM| == n == |t.marginals| && acc.k < U64_MAX
    requires Balanced(acc, value) && Cong(Sum(t.marginals), value, P)
    ensures Balanced(Absorb(acc, t, h), value)
  {
    if t.id !in acc.seen {
      assert 1 * value == value;
      SumOfBoth(acc, Acc(t.marginals, 1, {}, []), value);
    }
  }

  lemma {:induction false} SelfFoldBalanced(n: nat, tickets: seq<Ticket>, value: Element, h: AccHash)
    requires OfDimension(tickets, n) && |tickets| <= U64_MAX
    requires forall j :: 0 <= j < |tickets| ==> Cong(Sum(tickets[j].marginals), value, P)
    ensures Balanced(SelfFold(n, tickets, h), value)
  {
    if tickets == [] {
      SumOfZeros(n);
      assert 0 * value == 0;
      CongRefl(0, P);
    } else {
      var rest := tickets[..|tickets| - 1];
      SelfFoldBalanced(n, rest, value, h);
      SelfFoldCounts(n, rest, h);
      AbsorbBalanced(SelfFold(n, rest, h), tickets[|tickets| - 1], n, value, h);
    }
  }

  lemma FoldBalanced(a: Acc, b: Acc, n: nat, value: Element, h: AccHash)
    requires |a.sumM| == |b.sumM| == n && a.k == |a.seen| && b.k == |b.seen| && a.seen !! b.seen && a.k + b.k <= U64_MAX
    requires Balanced(a, value) && Balanced(b, value)
    ensures Balanced(Fold(a, b, h), value)
  {
    FoldOfTwo(a, b, n, h);
    SumOfBoth(a, b, value);
  }

  ghost predicate AllBalanced(leaves: seq<Acc>, value: Element) {
    forall i :: 0 <= i < |leaves| ==> Balanced(leaves[i], value)
  }

  lemma {:induction false} LevelBalanced(level: seq<Acc>, n: nat, value: Element, h: AccHash)
    requires Counted(level, n) && Disjoint(level) && SampleCount(level) <= U64_MAX && AllBalanced(level, value)
    ensures AllBalanced(FoldLevel(level, h), value)
  {
    if |level| > 1 {
      var rest := level[2..];
      assert level[1..][1..] == rest;
      LevelBalanced(rest, n, value, h);
      FoldBalanced(level[0], level[1], n, value, h);
      hide Balanced, Fold;
      LevelIs(level, h);
    }
  }

  /** The root of a tree over disjoint balanced accumulators is balanced: k samples, each worth the value of everyone. */
  lemma {:induction false} RootBalanced(leaves: seq<Acc>, n: nat, value: Element, h: AccHash)
    requires leaves != [] && Counted(leaves, n) && Disjoint(leaves) && SampleCount(leaves) <= U64_MAX
    requires AllBalanced(leaves, value)
    ensures Balanced(FoldTree(leaves, h), value)
    decreases |leaves|
  {
    if |leaves| > 1 {
      LevelKeeps(leaves, n, h);
      LevelBalanced(leaves, n, value, h);
      RootBalanced(FoldLevel(leaves, h), n, value, h);
    }
  }

  /** Folding accumulators that share samples: the shared ones are summed twice and counted once, so the balance
      survives exactly when nothing is shared or the value of everyone is zero. */
  lemma OverlapUnbalances(a: Acc, b: Acc, n: nat, value: Element, h: AccHash)
    requires |a.sumM| == |b.sumM| == n && a.k == |a.seen| && b.k == |b.seen| && a.k + b.k <= U64_MAX
    requires Balanced(a, value) && Balanced(b, value)
    ensures Balanced(Fold(a, b, h), value) <==> (a.seen !! b.seen || value == 0)
  {
    var inter := a.seen * b.seen;
    if a.seen !! b.seen {
      FoldBalanced(a, b, n, value, h);
    } else {
      var x :| x in a.seen && x in b.seen;
      assert x in inter;
      SubsetSize(inter, a.seen);
      SubsetSize(inter, b.seen);
      UnionSize(a.seen, b.seen);
      var s := AddSums(a.sumM, b.sumM);
      SumOfBoth(a, b, value);
      assert Fold(a, b, h).sumM == s && Fold(a, b, h).k == |a.seen + b.seen|;
      DoubleCount(Sum(s), a.k + b.k, |a.seen + b.seen|, |inter|, value);
    }
  }

  lemma SumOfBoth(a: Acc, b: Acc, value: Element)
    requires |a.sumM| == |b.sumM| && Balanced(a, value) && Balanced(b, value)
    ensures Cong(Sum(AddSums(a.sumM, b.sumM)), (a.k + b.k) * value, P)
  {
    hide Cong, Sum;
    var x, y, z: int := a.k * value, b.k * value, (a.k + b.k) * value;
    DistributeValue(a.k, b.k, value);
    SumOfAddSums(a.sumM, b.sumM);
    CongAdd(Sum(a.sumM), x, Sum(b.sumM), y, P);
    CongTrans(Sum(AddSums(a.sumM, b.sumM)), Sum(a.sumM) + Sum(b.sumM), z, P);
  }

  lemma DistributeValue(j: int, k: int, value: int)
    ensures (j + k) * value == j * value + k * value
  {
  }

  lemma UnionSize(a: set<SampleId>, b: set<SampleId>)
    ensures |a + b| == |a| + |b| - |a * b|
  {
  }

  lemma DoubleCount(s: int, k: nat, union: nat, shared: nat, value: Element)
    requires Cong(s, k * value, P) && union == k - shared && 0 < shared < P
    ensures Cong(s, union * value, P) <==> value == 0
  {
    assert k * value == union * value + shared * value;
    if value == 0 {
      assert k * value == union * value == 0;
    }
    if Cong(s, union * value, P) {
      CongSym(s, k * value, P);
      CongTrans(k * value, s, union * value, P);
      assert Cong(shared * value, 0, P);
      PIsPrime();
      ZeroProductGeneral(P, shared, value);
      if value != 0 {
        CongCanonicalZero(shared, P);
        CongCanonicalZero(value, P);
      }
    }
  }

  // ---------- grinding ----------

  /** The win-test hash of a settlement attempt. */
  type SettleScore = (SampleId, seq<Element>) -> nat

  /** The ticket of a nonce: the marginals of its ordering, and their score. */
  ghost function TicketOf(v: Game, n: nat, miner: seq<Bytes.Byte>, nonce: nat, beacon: seq<Bytes.Byte>, h: DigestHash,
                          score: SettleScore): Ticket
    requires Digests32(h)
  {
    var m := MarginalList(v, n, OrderingOf(n, beacon, nonce, h));
    Ticket(SampleId(miner, nonce), m, score(SampleId(miner, nonce), m))
  }

  /** Every ticket among these attempts that scores below the target, in order; without contributors there is none. */
  ghost function Winners(v: Game, n: nat, miner: seq<Bytes.Byte>, startNonce: nat, attempts: nat, target: nat,
                         beacon: seq<Bytes.Byte>, h: DigestHash, score: SettleScore): seq<Ticket>
    requires Digests32(h)
  {
    if n == 0 || attempts == 0 then []
    else
      var t := TicketOf(v, n, miner, SaturatingAdd(startNonce, attempts - 1), beacon, h, score);
      Winners(v, n, miner, startNonce, attempts - 1, target, beacon, h, score) + if t.score < target then [t] else []
  }

  lemma NextWinner(v: Game, n: nat, miner: seq<Bytes.Byte>, startNonce: nat, i: nat, target: nat,
                   beacon: seq<Bytes.Byte>, h: DigestHash, score: SettleScore)
    requires Digests32(h)
    ensures Winners(v, n, miner, startNonce, 0, target, beacon, h, score) == []
    ensures Winners(v, n, miner, startNonce, i + 1, target, beacon, h, score)
         == Winners(v, n, miner, startNonce, i, target, beacon, h, score)
            + var t := TicketOf(v, n, miner, SaturatingAdd(startNonce, i), beacon, h, score);
              if n != 0 && t.score < target then [t] else []
  {
    hide TicketOf;
  }

  lemma {:induction false} WinnersPrefix(v: Game, n: nat, miner: seq<Bytes.Byte>, startNonce: nat, a: nat, b: nat, target: nat,
                                         beacon: seq<Bytes.Byte>, h: DigestHash, score: SettleScore)
    requires Digests32(h) && a <= b
    ensures Winners(v, n, miner, startNonce, a, target, beacon, h, score)
         <= Winners(v, n, miner, startNonce, b, target, beacon, h, score)
  {
    hide TicketOf;
    if a < b && n != 0 {
      WinnersPrefix(v, n, miner, startNonce, a, b - 1, target, beacon, h, score);
    }
  }

  /** What every ticket is worth and whose it is. */
  ghost predicate Settles(t: Ticket, v: Game, n: nat, miner: seq<Bytes.Byte>, target: nat) {
    && t.id.miner == miner && |t.marginals| == n && t.score < target
    && Cong(Sum(t.marginals), v(Elements(Upto(n))), P)
  }

  lemma {:induction false} WinnersSettle(v: Game, n: nat, miner: seq<Bytes.Byte>, startNonce: nat, attempts: nat, target: nat,
                                         beacon: seq<Bytes.Byte>, h: DigestHash, score: SettleScore)
    requires Digests32(h)
    ensures var ws := Winners(v, n, miner, startNonce, attempts, target, beacon, h, score);
            |ws| <= attempts && forall j :: 0 <= j < |ws| ==> Settles(ws[j], v, n, miner, target)
  {
    if n != 0 && attempts != 0 {
      WinnersSettle(v, n, miner, startNonce, attempts - 1, target, beacon, h, score);
      OrderingIsWorthEverything(v, n, OrderingOf(n, beacon, SaturatingAdd(startNonce, attempts - 1), h));
      hide MarginalList, OrderingOf, Cong, Sum;
    }
  }

  lemma OrderingIsWorthEverything(v: Game, n: nat, order: seq<nat>)
    requires n > 0 && IsPermutation(order, n)
    ensures Cong(Sum(MarginalList(v, n, order)), v(Elements(Upto(n))), P)
  {
    PermutationFacts(order, n);
    var m := MarginalList(v, n, order);
    SumOfReduced(m, ByContributor(v, order), n);
    assert m[..n] == m;
    MarginalsAddUp(v, order, n);
  }

  /** Grinding nonces: the first `want` winners among the attempts, none skipped. */
  method GrindSettlement(v: Game, n: nat, miner: seq<Bytes.Byte>, startNonce: nat, maxAttempts: nat, want: nat, target: nat,
                         beacon: seq<Bytes.Byte>, h: DigestHash, score: SettleScore) returns (out: seq<Ticket>)
    requires Digests32(h) && |beacon| == 32 && startNonce <= U64_MAX
    ensures var all := Winners(v, n, miner, startNonce, maxAttempts, target, beacon, h, score);
            out == if want < |all| then all[..want] else all
    ensures forall j :: 0 <= j < |out| ==> Settles(out[j], v, n, miner, target)
  {
    Bytes.Limits();
    WinnersSettle(v, n, miner, startNonce, maxAttempts, target, beacon, h, score);
    hide Settles, TicketOf, Winners, MarginalList, OrderingOf;
    out := [];
    var i := 0;
    NextWinner(v, n, miner, startNonce, 0, target, beacon, h, score);
    while i < maxAttempts && |out| < want
      invariant 0 <= i <= maxAttempts && |out| <= want
      invariant out == Winners(v, n, miner, startNonce, i, target, beacon, h, score)
    {
      NextWinner(v, n, miner, startNonce, i, target, beacon, h, score);
      if n != 0 {
        var nonce := SaturatingAdd(startNonce, i);
        var m := Sample(v, n, nonce, beacon, h);
        var s := score(SampleId(miner, nonce), m);
        TicketIs(v, n, miner, nonce, beacon, h, score);
        if s < target {
          out := out + [Ticket(SampleId(miner, nonce), m, s)];
        }
      }
      i := i + 1;
    }
    WinnersPrefix(v, n, miner, startNonce, i, maxAttempts, target, beacon, h, score);
    FirstOfAll(out, Winners(v, n, miner, startNonce, maxAttempts, target, beacon, h, score), want);
  }

  lemma FirstOfAll(out: seq<Ticket>, all: seq<Ticket>, want: nat)
    requires out <= all && |out| <= want && (|out| < want ==> out == all)
    ensures out == (if want < |all| then all[..want] else all) && forall j :: 0 <= j < |out| ==> out[j] == all[j]
  {
  }

  lemma TicketIs(v: Game, n: nat, miner: seq<Bytes.Byte>, nonce: nat, beacon: seq<Bytes.Byte>, h: DigestHash, score: SettleScore)
    requires Digests32(h)
    ensures var m := MarginalList(v, n, OrderingOf(n, beacon, nonce, h));
            TicketOf(v, n, miner, nonce, beacon, h, score) == Ticket(SampleId(miner, nonce), m, score(SampleId(miner, nonce), m))
  {
  }

  /** The marginals of the nonce's ordering; they are worth the value of everyone. */
  method Sample(v: Game, n: nat, nonce: nat, beacon: seq<Bytes.Byte>, h: DigestHash) returns (m: seq<Element>)
    requires n > 0 && Digests32(h) && |beacon| == 32 && nonce < Bytes.Limit(8)
    ensures m == MarginalList(v, n, OrderingOf(n, beacon, nonce, h)) && Cong(Sum(m), v(Elements(Upto(n))), P)
  {
    var order := Ordering(n, beacon, nonce, h);
    PermutationFacts(order, n);
    m := Marginals(v, n, order);
    assert m == MarginalList(v, n, order);
    OrderingIsWorthEverything(v, n, order);
  }

  // ---------- from ground tickets to the root ----------

  function SelfFolds(n: nat, batches: seq<seq<Ticket>>, h: AccHash): (accs: seq<Acc>)
    ensures |accs| == |batches| && forall b :: 0 <= b < |batches| ==> accs[b] == SelfFold(n, batches[b], h)
  {
    seq(|batches|, b requires 0 <= b < |batches| => SelfFold(n, batches[b], h))
  }

  /** All the tickets of the batches, each sample once per batch. */
  function AllFirsts(batches: seq<seq<Ticket>>): seq<Ticket> {
    if batches == [] then [] else FirstOfEach(batches[0]) + AllFirsts(batches[1..])
  }

  function AllIds(batches: seq<seq<Ticket>>): set<SampleId> {
    if batches == [] then {} else Ids(batches[0]) + AllIds(batches[1..])
  }

  function TicketCount(batches: seq<seq<Ticket>>): nat {
    if batches == [] then 0 else |batches[0]| + TicketCount(batches[1..])
  }

  /** Tickets of dimension n that are each worth the value, no sample in two batches. */
  ghost predicate FairBatches(n: nat, batches: seq<seq<Ticket>>, value: Element) {
    && (forall b :: 0 <= b < |batches| ==> FairBatch(n, batches[b], value))
    && (forall b, c :: 0 <= b < c < |batches| ==> Ids(batches[b]) !! Ids(batches[c]))
  }

  ghost predicate FairBatch(n: nat, batch: seq<Ticket>, value: Element) {
    OfDimension(batch, n) && forall j :: 0 <= j < |batch| ==> Cong(Sum(batch[j].marginals), value, P)
  }

  lemma {:induction false} BatchTotals(n: nat, batches: seq<seq<Ticket>>, value: Element, h: AccHash)
    requires FairBatches(n, batches, value) && TicketCount(batches) <= U64_MAX
    ensures var accs := SelfFolds(n, batches, h);
            && Counted(accs, n) && Disjoint(accs) && AllBalanced(accs, value)
            && SampleCount(accs) <= TicketCount(batches) && AllSeen(accs) == AllIds(batches)
  {
    if batches == [] {
      NoBatches(n, h);
    } else {
      hide FairBatches, FairBatch, SelfFold, Balanced, Ids, Counted, Disjoint, AllBalanced, SampleCount, AllSeen;
      var rest := batches[1..];
      FairParts(n, batches, value);
      BatchTotals(n, rest, value, h);
      FairSelfFold(n, batches[0], value, h);
      var acc, later := SelfFold(n, batches[0], h), SelfFolds(n, rest, h);
      assert SelfFolds(n, batches, h) == [acc] + later;
      DisjointFromEach(acc.seen, later);
      DisjointCons(acc, later);
      CountedCons(acc, later, n);
      CountsCons(acc, later);
      BalancedCons(acc, later, value);
    }
  }

  lemma NoBatches(n: nat, h: AccHash)
    ensures var accs := SelfFolds(n, [], h);
            && Counted(accs, n) && Disjoint(accs) && (forall value: Element :: AllBalanced(accs, value))
            && SampleCount(accs) == 0 && AllSeen(accs) == {}
  {
  }

  lemma BalancedCons(a: Acc, leaves: seq<Acc>, value: Element)
    requires Balanced(a, value) && AllBalanced(leaves, value)
    ensures AllBalanced([a] + leaves, value)
  {
  }

  lemma FairParts(n: nat, batches: seq<seq<Ticket>>, value: Element)
    requires batches != [] && FairBatches(n, batches, value)
    ensures FairBatch(n, batches[0], value) && FairBatches(n, batches[1..], value)
    ensures Ids(batches[0]) !! AllIds(batches[1..])
  {
    hide FairBatch, Ids;
    var rest := batches[1..];
    assert forall b :: 0 <= b < |rest| ==> rest[b] == batches[b + 1];
    ApartFromAll(Ids(batches[0]), rest);
  }

  lemma {:induction false} ApartFromAll(ids: set<SampleId>, batches: seq<seq<Ticket>>)
    requires forall b :: 0 <= b < |batches| ==> ids !! Ids(batches[b])
    ensures ids !! AllIds(batches)
  {
    hide Ids;
    if batches != [] {
      assert forall b :: 0 <= b < |batches[1..]| ==> batches[1..][b] == batches[b + 1];
      ApartFromAll(ids, batches[1..]);
    }
  }

  lemma FairSelfFold(n: nat, batch: seq<Ticket>, value: Element, h: AccHash)
    requires FairBatch(n, batch, value) && |batch| <= U64_MAX
    ensures var acc := SelfFold(n, batch, h);
            && |acc.sumM| == n && acc.k == |acc.seen| <= |batch| && acc.seen == Ids(batch) && Balanced(acc, value)
  {
    SelfFoldCounts(n, batch, h);
    SelfFoldBalanced(n, batch, value, h);
  }

  lemma {:induction false} BatchSums(n: nat, batches: seq<seq<Ticket>>, value: Element, h: AccHash, i: nat)
    requires FairBatches(n, batches, value) && TicketCount(batches) <= U64_MAX && i < n
    ensures Cong(SumBy(SumColumn(i), SelfFolds(n, batches, h)), SumBy(MarginalColumn(i), AllFirsts(batches)), P)
  {
    hide SelfFold, FirstOfEach, FairBatch, FairBatches, Cong, SumBy, Ids, SelfFolds, AllFirsts, MarginalColumn, SumColumn;
    if batches == [] {
      NoSums(n, h, i);
    } else {
      var rest := batches[1..];
      FairParts(n, batches, value);
      SelfFoldSums(n, batches[0], value, h, i);
      BatchSums(n, rest, value, h, i);
      SumOfBatches(n, batches, h, i);
      CongAdd(SelfFold(n, batches[0], h).sumM[i], SumBy(MarginalColumn(i), FirstOfEach(batches[0])),
              SumBy(SumColumn(i), SelfFolds(n, rest, h)), SumBy(MarginalColumn(i), AllFirsts(rest)), P);
    }
  }

  lemma NoSums(n: nat, h: AccHash, i: nat)
    ensures Cong(SumBy(SumColumn(i), SelfFolds(n, [], h)), SumBy(MarginalColumn(i), AllFirsts([])), P)
  {
    CongRefl(0, P);
  }

  lemma SelfFoldSums(n: nat, batch: seq<Ticket>, value: Element, h: AccHash, i: nat)
    requires FairBatch(n, batch, value) && |batch| <= U64_MAX && i < n
    ensures |SelfFold(n, batch, h).sumM| == n
    ensures Cong(SelfFold(n, batch, h).sumM[i], SumBy(MarginalColumn(i), FirstOfEach(batch)), P)
  {
    SelfFoldCounts(n, batch, h);
    CongMod(SumBy(MarginalColumn(i), FirstOfEach(batch)), P);
  }

  lemma SumOfBatches(n: nat, batches: seq<seq<Ticket>>, h: AccHash, i: nat)
    requires batches != [] && i < |SelfFold(n, batches[0], h).sumM|
    ensures SumBy(SumColumn(i), SelfFolds(n, batches, h))
         == SelfFold(n, batches[0], h).sumM[i] + SumBy(SumColumn(i), SelfFolds(n, batches[1..], h))
    ensures SumBy(MarginalColumn(i), AllFirsts(batches))
         == SumBy(MarginalColumn(i), FirstOfEach(batches[0])) + SumBy(MarginalColumn(i), AllFirsts(batches[1..]))
  {
    hide SelfFold, FirstOfEach;
    assert SelfFolds(n, batches, h)[1..] == SelfFolds(n, batches[1..], h);
    SumByAppend(MarginalColumn(i), FirstOfEach(batches[0]), AllFirsts(batches[1..]));
  }

  /** From ground tickets to the root: whatever the batches' order, the root has seen exactly their samples, counts them,
      sums the marginals of each sample once, and is worth the value of everyone times the count. */
  lemma TicketsSettle(n: nat, batches: seq<seq<Ticket>>, value: Element, h: AccHash)
    requires batches != [] && FairBatches(n, batches, value) && TicketCount(batches) <= U64_MAX
    ensures var root := FoldTree(SelfFolds(n, batches, h), h);
            && root.seen == AllIds(batches) && root.k == |root.seen| && |root.sumM| == n
            && (forall i :: 0 <= i < n ==> root.sumM[i] == Reduce(SumBy(MarginalColumn(i), AllFirsts(batches))))
            && Cong(Sum(root.sumM), root.k * value, P)
  {
    var accs := SelfFolds(n, batches, h);
    BatchTotals(n, batches, value, h);
    RootIsTotal(accs, n, h);
    RootBalanced(accs, n, value, h);
    hide FoldTree, SelfFolds, SumBy;
    forall i | 0 <= i < n
      ensures Reduce(SumBy(SumColumn(i), accs)) == Reduce(SumBy(MarginalColumn(i), AllFirsts(batches)))
    {
      BatchSums(n, batches, value, h, i);
      CongSameMod(SumBy(SumColumn(i), accs), SumBy(MarginalColumn(i), AllFirsts(batches)), P);
    }
  }

  /** One miner's grinding. */
  datatype Mining = Mining(miner: seq<Bytes.Byte>, startNonce: nat, maxAttempts: nat, want: nat, target: nat)

  ghost function Ground(m: Mining, v: Game, n: nat, beacon: seq<Bytes.Byte>, h: DigestHash, score: SettleScore): seq<Ticket>
    requires Digests32(h)
  {
    var all := Winners(v, n, m.miner, m.startNonce, m.maxAttempts, m.target, beacon, h, score);
    if m.want < |all| then all[..m.want] else all
  }

  /** Miners with different ids that grind under one beacon produce fair batches. */
  lemma MinersAreFair(minings: seq<Mining>, batches: seq<seq<Ticket>>, v: Game, n: nat, beacon: seq<Bytes.Byte>,
                      h: DigestHash, score: SettleScore)
    requires Digests32(h) && |batches| == |minings|
    requires forall a, b :: 0 <= a < b < |minings| ==> minings[a].miner != minings[b].miner
    requires forall b :: 0 <= b < |minings| ==> batches[b] == Ground(minings[b], v, n, beacon, h, score)
    ensures FairBatches(n, batches, v(Elements(Upto(n))))
  {
    forall b | 0 <= b < |minings|
      ensures FairBatch(n, batches[b], v(Elements(Upto(n)))) && forall x :: x in Ids(batches[b]) ==> x.miner == minings[b].miner
    {
      var m := minings[b];
      WinnersSettle(v, n, m.miner, m.startNonce, m.maxAttempts, m.target, beacon, h, score);
    }
  }

  // ---------- commitments, winners, unequal dimensions ----------

  /** A self-fold of any tickets of one dimension is committed to by its own contents. */
  lemma {:induction false} SelfFoldCommitment(n: nat, tickets: seq<Ticket>, h: AccHash)
    requires OfDimension(tickets, n) && tickets != [] && |tickets| <= U64_MAX
    ensures var acc := SelfFold(n, tickets, h); acc.commitment == h(acc.sumM, acc.k, acc.seen)
  {
    var last := |tickets| - 1;
    SelfFoldCounts(n, tickets[..last], h);
    if last > 0 {
      SelfFoldCommitment(n, tickets[..last], h);
    } else {
      assert tickets[..last] == [];
    }
    assert |tickets[last].marginals| == n;
  }

  /** Every attempted nonce whose score is below the target gives a winning ticket, and no other does. */
  lemma {:induction false} WinnersIff(v: Game, n: nat, miner: seq<Bytes.Byte>, startNonce: nat, attempts: nat, target: nat,
                                      beacon: seq<Bytes.Byte>, h: DigestHash, score: SettleScore, t: Ticket)
    requires Digests32(h) && n > 0
    ensures t in Winners(v, n, miner, startNonce, attempts, target, beacon, h, score) <==>
            exists i :: 0 <= i < attempts && t == TicketOf(v, n, miner, SaturatingAdd(startNonce, i), beacon, h, score) && t.score < target
  {
    hide TicketOf;
    if attempts > 0 {
      WinnersIff(v, n, miner, startNonce, attempts - 1, target, beacon, h, score, t);
    }
  }

  /** A ticket carries its nonce, the marginals of the ordering of that nonce, and their score. */
  lemma TicketIsOfNonce(v: Game, n: nat, miner: seq<Bytes.Byte>, nonce: nat, beacon: seq<Bytes.Byte>, h: DigestHash, score: SettleScore)
    requires Digests32(h)
    ensures
      var t := TicketOf(v, n, miner, nonce, beacon, h, score);
      && t.id == SampleId(miner, nonce) && |t.marginals| == n && t.score == score(t.id, t.marginals)
      && forall i :: 0 <= i < n ==> t.marginals[i] == Reduce(ByContributor(v, OrderingOf(n, beacon, nonce, h))(i))
  {
    hide OrderingOf;
  }

  /** Accumulators of different dimensions: the sums of the one with more samples, the left one if equal; all the samples
      seen, counted once each; committed to by the result. */
  lemma FoldUnequal(left: Acc, right: Acc, h: AccHash)
    requires |left.sumM| != |right.sumM|
    ensures
      var acc := Fold(left, right, h);
      && acc.sumM == (if left.k < right.k then right.sumM else left.sumM)
      && (forall x :: x in acc.seen <==> x in left.seen || x in right.seen)
      && acc.k == |left.seen + right.seen| && acc.commitment == h(acc.sumM, acc.k, acc.seen)
  {
  }
}
