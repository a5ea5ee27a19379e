/** The namespace Merkle tree (src/nmt.rs). The hash to hexadecimal is a parameter. */
module Nmt {
  import opened Sorting
  import opened Strings

  datatype Leaf = Leaf(namespace: string, dataHash: string)
  datatype Node = Node(hash: string, minNs: string, maxNs: string)
  datatype Proof = Proof(namespace: string, leaves: seq<Leaf>, root: Node, totalLeaves: nat)

  predicate LeafLe(a: Leaf, b: Leaf) {
    if a.namespace == b.namespace then StrLe(a.dataHash, b.dataHash) else StrLe(a.namespace, b.namespace)
  }

  lemma LeafLeTransitive(a: Leaf, b: Leaf, c: Leaf)
    requires LeafLe(a, b) && LeafLe(b, c)
    ensures LeafLe(a, c) && StrLe(a.namespace, c.namespace)
  {
    StrLeOrders();
    assert StrLe(a.namespace, b.namespace) && StrLe(b.namespace, c.namespace);
    assert StrLe(a.namespace, c.namespace);
  }

  lemma LeafLeOrders()
    ensures TotalOrder(LeafLe)
  {
    forall a: Leaf, b: Leaf
      ensures LeafLe(a, b) || LeafLe(b, a)
      ensures LeafLe(a, b) && LeafLe(b, a) ==> a == b
    {
      StrLeOrders();
    }
    forall a: Leaf, b: Leaf, c: Leaf | LeafLe(a, b) && LeafLe(b, c)
      ensures LeafLe(a, c)
    {
      LeafLeTransitive(a, b, c);
    }
  }

  const ZEROS: string := seq(64, _ => '0')

  function LeafText(leaf: Leaf): string {
    "nmt_leaf:" + (leaf.namespace + ":" + leaf.dataHash)
  }

  function NodeText(left: Node, right: Node): string {
    "nmt_node:" + (left.hash + ":" + (right.hash + ":" + (left.minNs + ":" + right.maxNs)))
  }

  function HashPair(hash: string -> string, left: Node, right: Node): Node {
    Node(hash(NodeText(left, right)), StrMin(left.minNs, right.minNs), StrMax(left.maxNs, right.maxNs))
  }

  function BuildTree(hash: string -> string, sorted: seq<Leaf>): Node {
    if sorted == [] then Node(ZEROS, "", "")
    else if |sorted| == 1 then Node(hash(LeafText(sorted[0])), sorted[0].namespace, sorted[0].namespace)
    else
      var mid := |sorted| / 2;
      HashPair(hash, BuildTree(hash, sorted[..mid]), BuildTree(hash, sorted[mid..]))
  }

  function Build(hash: string -> string, leaves: seq<Leaf>): Node {
    BuildTree(hash, Sort(leaves, LeafLe))
  }

  function Filter(s: seq<Leaf>, namespace: string): seq<Leaf> {
    if s == [] then []
    else (if s[0].namespace == namespace then [s[0]] else []) + Filter(s[1..], namespace)
  }

  function Prove(hash: string -> string, leaves: seq<Leaf>, namespace: string): Proof {
    var sorted := Sort(leaves, LeafLe);
    Proof(namespace, Filter(sorted, namespace), BuildTree(hash, sorted), |sorted|)
  }

  // ---------- what the hash must not do ----------

  /** Every text hashed while the tree is built. */
  function Hashed(hash: string -> string, sorted: seq<Leaf>): set<string> {
    if sorted == [] then {}
    else if |sorted| == 1 then {LeafText(sorted[0])}
    else
      var mid := |sorted| / 2;
      Hashed(hash, sorted[..mid]) + Hashed(hash, sorted[mid..])
      + {NodeText(BuildTree(hash, sorted[..mid]), BuildTree(hash, sorted[mid..]))}
  }

  /** On these texts the hash gives 64 digits, never all zeros, and never the same digits twice. */
  ghost predicate Collisionless(hash: string -> string, texts: set<string>) {
    && (forall x :: x in texts ==> |hash(x)| == 64 && hash(x) != ZEROS)
    && forall x, y :: x in texts && y in texts && hash(x) == hash(y) ==> x == y
  }

  // ---------- the bounds ----------

  lemma SplitSorted(s: seq<Leaf>, mid: nat)
    requires Sorted(s, LeafLe) && mid <= |s|
    ensures Sorted(s[..mid], LeafLe) && Sorted(s[mid..], LeafLe)
  {
  }

  /** The bounds of a sorted tree are its first and last namespaces. */
  lemma {:induction false} TreeBounds(hash: string -> string, s: seq<Leaf>)
    requires Sorted(s, LeafLe) && s != []
    ensures BuildTree(hash, s).minNs == s[0].namespace && BuildTree(hash, s).maxNs == s[|s| - 1].namespace
  {
    if |s| > 1 {
      var mid := |s| / 2;
      SplitSorted(s, mid);
      TreeBounds(hash, s[..mid]);
      TreeBounds(hash, s[mid..]);
      assert LeafLe(s[0], s[mid]) && LeafLe(s[mid - 1], s[|s| - 1]);
      StrLeOrders();
      assert StrLe(s[0].namespace, s[mid].namespace) && StrLe(s[mid - 1].namespace, s[|s| - 1].namespace);
    }
  }

  /** A non-empty root carries the least and the greatest namespace of its leaves. */
  lemma RootBounds(hash: string -> string, leaves: seq<Leaf>, leaf: Leaf)
    requires leaf in leaves
    ensures StrLe(Build(hash, leaves).minNs, leaf.namespace) && StrLe(leaf.namespace, Build(hash, leaves).maxNs)
    ensures exists l :: l in leaves && l.namespace == Build(hash, leaves).minNs
    ensures exists l :: l in leaves && l.namespace == Build(hash, leaves).maxNs
  {
    hide BuildTree, StrLe, LeafLe, Sort;
    var s := Sort(leaves, LeafLe);
    SortedLeaves(leaves);
    TreeBounds(hash, s);
    var i :| 0 <= i < |s| && s[i] == leaf;
    BetweenEnds(s, i);
    assert s[0] in leaves && s[|s| - 1] in leaves;
  }

  lemma SortedLeaves(leaves: seq<Leaf>)
    ensures Sorted(Sort(leaves, LeafLe), LeafLe) && forall l :: l in Sort(leaves, LeafLe) <==> l in leaves
  {
    LeafLeOrders();
    SortSorted(leaves, LeafLe);
    SortRearranges(leaves, LeafLe);
    SameElements(Sort(leaves, LeafLe), leaves);
  }

  lemma BetweenEnds(s: seq<Leaf>, i: nat)
    requires Sorted(s, LeafLe) && i < |s|
    ensures StrLe(s[0].namespace, s[i].namespace) && StrLe(s[i].namespace, s[|s| - 1].namespace)
  {
    StrLeOrders();
    assert i > 0 ==> LeafLe(s[0], s[i]);
    assert i < |s| - 1 ==> LeafLe(s[i], s[|s| - 1]);
  }

  // ---------- the root determines the leaves ----------

  lemma ConcatCancel(a: string, b: string, c: string, d: string)
    requires a + b == c + d && |a| == |c|
    ensures a == c && b == d
  {
    assert a == (a + b)[..|a|] && c == (c + d)[..|c|];
    assert b == (a + b)[|a|..] && d == (c + d)[|c|..];
  }

  lemma LeafTextCancel(x: Leaf, y: Leaf)
    requires LeafText(x) == LeafText(y) && x.namespace == y.namespace
    ensures x == y
  {
    ConcatCancel("nmt_leaf:", x.namespace + ":" + x.dataHash, "nmt_leaf:", y.namespace + ":" + y.dataHash);
    ConcatCancel(x.namespace + ":", x.dataHash, y.namespace + ":", y.dataHash);
  }

  lemma NodeTextCancel(l: Node, r: Node, l': Node, r': Node)
    requires NodeText(l, r) == NodeText(l', r')
    requires |l.hash| == |l'.hash| && |r.hash| == |r'.hash|
    ensures l.hash == l'.hash && r.hash == r'.hash
    ensures l.minNs == l'.minNs <==> r.maxNs == r'.maxNs
  {
    var rest, rest' := l.minNs + ":" + r.maxNs, l'.minNs + ":" + r'.maxNs;
    ConcatCancel("nmt_node:", l.hash + ":" + (r.hash + ":" + rest), "nmt_node:", l'.hash + ":" + (r'.hash + ":" + rest'));
    ConcatCancel(l.hash + ":", r.hash + ":" + rest, l'.hash + ":", r'.hash + ":" + rest');
    ConcatCancel(l.hash, ":", l'.hash, ":");
    ConcatCancel(r.hash + ":", rest, r'.hash + ":", rest');
    ConcatCancel(r.hash, ":", r'.hash, ":");
    if l.minNs == l'.minNs {
      ConcatCancel(l.minNs + ":", r.maxNs, l'.minNs + ":", r'.maxNs);
    }
    if r.maxNs == r'.maxNs {
      assert |rest| == |l.minNs| + 1 + |r.maxNs| && |rest'| == |l'.minNs| + 1 + |r'.maxNs|;
      ConcatCancel(l.minNs + ":", r.maxNs, l'.minNs + ":", r'.maxNs);
      ConcatCancel(l.minNs, ":", l'.minNs, ":");
    }
  }

  lemma TextsDiffer(leaf: Leaf, l: Node, r: Node)
    ensures LeafText(leaf) != NodeText(l, r)
  {
    assert LeafText(leaf)[4] == 'l' && NodeText(l, r)[4] == 'n';
  }

  /** The text a non-empty tree is hashed from last. */
  function TopText(hash: string -> string, s: seq<Leaf>): string
    requires s != []
  {
    if |s| == 1 then LeafText(s[0])
    else NodeText(BuildTree(hash, s[..|s| / 2]), BuildTree(hash, s[|s| / 2..]))
  }

  lemma TopIsHashed(hash: string -> string, s: seq<Leaf>)
    requires s != []
    ensures TopText(hash, s) in Hashed(hash, s) && BuildTree(hash, s).hash == hash(TopText(hash, s))
  {
  }

  /** Equal hashes together with one equal bound leave no difference. */
  lemma {:induction false} SameHashSameLeaves(hash: string -> string, a: seq<Leaf>, b: seq<Leaf>, texts: set<string>)
    requires Sorted(a, LeafLe) && Sorted(b, LeafLe)
    requires Hashed(hash, a) <= texts && Hashed(hash, b) <= texts && Collisionless(hash, texts)
    requires BuildTree(hash, a).hash == BuildTree(hash, b).hash
    requires BuildTree(hash, a).minNs == BuildTree(hash, b).minNs || BuildTree(hash, a).maxNs == BuildTree(hash, b).maxNs
    ensures a == b
    decreases |a|
  {
    hide BuildTree, Hashed, TopText, LeafLe;
    SameTops(hash, a, b, texts);
    if |a| > 1 {
      SameHalves(hash, a, b, texts);
      var (i, j) := (|a| / 2, |b| / 2);
      SplitSorted(a, i);
      SplitSorted(b, j);
      SameHashSameLeaves(hash, a[..i], b[..j], texts);
      SameHashSameLeaves(hash, a[i..], b[j..], texts);
      assert a == a[..i] + a[i..] && b == b[..j] + b[j..];
    }
  }

  /** Trees with equal hashes are both empty, both the same leaf, or both nodes over the same text. */
  lemma SameTops(hash: string -> string, a: seq<Leaf>, b: seq<Leaf>, texts: set<string>)
    requires Hashed(hash, a) <= texts && Hashed(hash, b) <= texts && Collisionless(hash, texts)
    requires BuildTree(hash, a).hash == BuildTree(hash, b).hash
    requires BuildTree(hash, a).minNs == BuildTree(hash, b).minNs || BuildTree(hash, a).maxNs == BuildTree(hash, b).maxNs
    ensures |a| <= 1 ==> a == b
    ensures |b| <= 1 ==> a == b
    ensures |a| > 1 && |b| > 1 ==> TopText(hash, a) == TopText(hash, b)
  {
    if a != [] {
      TopIsHashed(hash, a);
    }
    if b != [] {
      TopIsHashed(hash, b);
    }
    if a == [] || b == [] {
    } else if |a| == 1 && |b| == 1 {
      LeafTextCancel(a[0], b[0]);
    } else if |a| == 1 {
      TextsDiffer(a[0], BuildTree(hash, b[..|b| / 2]), BuildTree(hash, b[|b| / 2..]));
    } else if |b| == 1 {
      TextsDiffer(b[0], BuildTree(hash, a[..|a| / 2]), BuildTree(hash, a[|a| / 2..]));
    }
  }

  lemma SameHalves(hash: string -> string, a: seq<Leaf>, b: seq<Leaf>, texts: set<string>)
    requires Sorted(a, LeafLe) && Sorted(b, LeafLe) && |a| > 1 && |b| > 1
    requires Hashed(hash, a) <= texts && Hashed(hash, b) <= texts && Collisionless(hash, texts)
    requires TopText(hash, a) == TopText(hash, b)
    requires BuildTree(hash, a).minNs == BuildTree(hash, b).minNs || BuildTree(hash, a).maxNs == BuildTree(hash, b).maxNs
    ensures var (i, j) := (|a| / 2, |b| / 2);
            && Hashed(hash, a[..i]) <= texts && Hashed(hash, a[i..]) <= texts
            && Hashed(hash, b[..j]) <= texts && Hashed(hash, b[j..]) <= texts
            && BuildTree(hash, a[..i]).hash == BuildTree(hash, b[..j]).hash
            && BuildTree(hash, a[i..]).hash == BuildTree(hash, b[j..]).hash
            && BuildTree(hash, a[..i]).minNs == BuildTree(hash, b[..j]).minNs
            && BuildTree(hash, a[i..]).maxNs == BuildTree(hash, b[j..]).maxNs
  {
    var (i, j) := (|a| / 2, |b| / 2);
    HalvesHashed(hash, a, texts);
    HalvesHashed(hash, b, texts);
    NodeTextCancel(BuildTree(hash, a[..i]), BuildTree(hash, a[i..]), BuildTree(hash, b[..j]), BuildTree(hash, b[j..]));
    HalfBounds(hash, a);
    HalfBounds(hash, b);
  }

  lemma HalvesHashed(hash: string -> string, a: seq<Leaf>, texts: set<string>)
    requires |a| > 1 && Hashed(hash, a) <= texts && Collisionless(hash, texts)
    ensures var i := |a| / 2;
            && Hashed(hash, a[..i]) <= texts && Hashed(hash, a[i..]) <= texts
            && |BuildTree(hash, a[..i]).hash| == 64 && |BuildTree(hash, a[i..]).hash| == 64
  {
    var i := |a| / 2;
    TopIsHashed(hash, a[..i]);
    TopIsHashed(hash, a[i..]);
  }

  lemma HalfBounds(hash: string -> string, a: seq<Leaf>)
    requires Sorted(a, LeafLe) && |a| > 1
    ensures BuildTree(hash, a[..|a| / 2]).minNs == BuildTree(hash, a).minNs
    ensures BuildTree(hash, a[|a| / 2..]).maxNs == BuildTree(hash, a).maxNs
  {
    hide BuildTree;
    SplitSorted(a, |a| / 2);
    TreeBounds(hash, a);
    TreeBounds(hash, a[..|a| / 2]);
    TreeBounds(hash, a[|a| / 2..]);
  }

  /** Two leaf lists have the same root exactly when they hold the same leaves. */
  lemma RootBinds(hash: string -> string, x: seq<Leaf>, y: seq<Leaf>)
    requires Collisionless(hash, Hashed(hash, Sort(x, LeafLe)) + Hashed(hash, Sort(y, LeafLe)))
    ensures Build(hash, x) == Build(hash, y) <==> multiset(x) == multiset(y)
  {
    LeafLeOrders();
    if multiset(x) == multiset(y) {
      SortCanonical(x, y, LeafLe);
    } else if Build(hash, x) == Build(hash, y) {
      SortSorted(x, LeafLe);
      SortSorted(y, LeafLe);
      SortRearranges(x, LeafLe);
      SortRearranges(y, LeafLe);
      SameHashSameLeaves(hash, Sort(x, LeafLe), Sort(y, LeafLe), Hashed(hash, Sort(x, LeafLe)) + Hashed(hash, Sort(y, LeafLe)));
    }
  }

  /** The hash alone does not bind: the text of a leaf does not say where the namespace ends. */
  lemma HashAloneDoesNotBind(hash: string -> string)
    ensures Build(hash, [Leaf("a:b", "c")]).hash == Build(hash, [Leaf("a", "b:c")]).hash
    ensures Build(hash, [Leaf("a:b", "c")]) != Build(hash, [Leaf("a", "b:c")])
  {
    var x, y := Leaf("a:b", "c"), Leaf("a", "b:c");
    assert Sort([x], LeafLe) == [x] && Sort([y], LeafLe) == [y];
    assert LeafText(x) == LeafText(y);
    assert |x.namespace| != |y.namespace|;
  }

  // ---------- verification ----------

  ghost predicate Accepts(proof: Proof, trusted: Node) {
    && proof.root == trusted
    && (forall i :: 0 <= i < |proof.leaves| ==> proof.leaves[i].namespace == proof.namespace)
    && forall i :: 0 < i < |proof.leaves| ==> LeafLe(proof.leaves[i - 1], proof.leaves[i])
  }

  method Verify(proof: Proof, trusted: Node) returns (ok: bool)
    ensures ok <==> Accepts(proof, trusted)
  {
    if proof.root != trusted {
      return false;
    }
    var i := 0;
    while i < |proof.leaves|
      invariant 0 <= i <= |proof.leaves|
      invariant forall j :: 0 <= j < i ==> proof.leaves[j].namespace == proof.namespace
    {
      if proof.leaves[i].namespace != proof.namespace {
        return false;
      }
      i := i + 1;
    }
    i := 1;
    while i < |proof.leaves|
      invariant 1 <= i
      invariant forall j :: 0 < j < i && j < |proof.leaves| ==> LeafLe(proof.leaves[j - 1], proof.leaves[j])
    {
      if Less(proof.leaves[i], proof.leaves[i - 1]) {
        LeafLeOrders();
        return false;
      }
      LeafLeOrders();
      i := i + 1;
    }
    return true;
  }

  predicate Less(a: Leaf, b: Leaf) {
    a != b && LeafLe(a, b)
  }

  /** Accepted exactly when the proof carries the root of these leaves and all the leaves of the namespace. */
  method VerifyFull(hash: string -> string, leaves: seq<Leaf>, proof: Proof) returns (ok: bool)
    ensures ok <==> proof.root == Build(hash, leaves) && proof.leaves == Filter(Sort(leaves, LeafLe), proof.namespace)
  {
    FilterOfSorted(leaves, proof.namespace);
    hide Build, Filter, Sort, LeafLe;
    var root := Build(hash, leaves);
    var actual := Filter(Sort(leaves, LeafLe), proof.namespace);
    var shape := Verify(proof, root);
    if !shape {
      return false;
    }
    if |actual| != |proof.leaves| {
      return false;
    }
    var i := 0;
    while i < |actual|
      invariant 0 <= i <= |actual|
      invariant forall j :: 0 <= j < i ==> actual[j] == proof.leaves[j]
    {
      if actual[i] != proof.leaves[i] {
        return false;
      }
      i := i + 1;
    }
    assert actual == proof.leaves;
    return true;
  }

  lemma {:induction false} FilterHolds(s: seq<Leaf>, namespace: string)
    ensures forall i :: 0 <= i < |Filter(s, namespace)| ==>
      Filter(s, namespace)[i] in s && Filter(s, namespace)[i].namespace == namespace
    ensures Sorted(s, LeafLe) ==> Sorted(Filter(s, namespace), LeafLe)
  {
    if s != [] {
      FilterHolds(s[1..], namespace);
      var rest := Filter(s[1..], namespace);
      if Sorted(s, LeafLe) {
        forall i | 0 <= i < |rest|
          ensures LeafLe(s[0], rest[i])
        {
          assert rest[i] in s[1..];
          var k :| 0 <= k < |s[1..]| && s[1..][k] == rest[i];
          assert s[k + 1] == rest[i];
        }
      }
    }
  }

  lemma FilterOfSorted(leaves: seq<Leaf>, namespace: string)
    ensures forall i :: 0 <= i < |Filter(Sort(leaves, LeafLe), namespace)| ==>
      Filter(Sort(leaves, LeafLe), namespace)[i].namespace == namespace
    ensures Sorted(Filter(Sort(leaves, LeafLe), namespace), LeafLe)
  {
    LeafLeOrders();
    SortSorted(leaves, LeafLe);
    FilterHolds(Sort(leaves, LeafLe), namespace);
  }

  /** The filtered leaves, counted: all of the namespace's and no others. */
  lemma {:induction false} FilterCounts(s: seq<Leaf>, namespace: string, leaf: Leaf)
    ensures multiset(Filter(s, namespace))[leaf] == if leaf.namespace == namespace then multiset(s)[leaf] else 0
  {
    if s != [] {
      FilterCounts(s[1..], namespace, leaf);
      assert s == [s[0]] + s[1..];
    }
  }

  /** Every proof that `Prove` makes passes both verifications. */
  lemma ProveIsAccepted(hash: string -> string, leaves: seq<Leaf>, namespace: string)
    ensures var proof := Prove(hash, leaves, namespace);
            && Accepts(proof, Build(hash, leaves))
            && proof.root == Build(hash, leaves) && proof.leaves == Filter(Sort(leaves, LeafLe), proof.namespace)
  {
    FilterOfSorted(leaves, namespace);
  }

  /** Full verification against a trusted root proves completeness, whichever list of leaves was shown to the verifier. */
  lemma FullVerificationIsComplete(hash: string -> string, truth: seq<Leaf>, shown: seq<Leaf>, proof: Proof, leaf: Leaf)
    requires Collisionless(hash, Hashed(hash, Sort(truth, LeafLe)) + Hashed(hash, Sort(shown, LeafLe)))
    requires Build(hash, shown) == Build(hash, truth)
    requires proof.leaves == Filter(Sort(shown, LeafLe), proof.namespace)
    ensures multiset(proof.leaves)[leaf] == if leaf.namespace == proof.namespace then multiset(truth)[leaf] else 0
  {
    RootBinds(hash, shown, truth);
    SortRearranges(shown, LeafLe);
    FilterCounts(Sort(shown, LeafLe), proof.namespace, leaf);
  }

  /** The light check knows nothing of the leaves: any sorted list of the namespace passes under any root. */
  lemma LightCheckIgnoresTheTree(proof: Proof, trusted: Node)
    requires Sorted(proof.leaves, LeafLe) && forall i :: 0 <= i < |proof.leaves| ==> proof.leaves[i].namespace == proof.namespace
    ensures Accepts(proof.(root := trusted), trusted)
  {
  }

  /** So for no tree and no namespace does its acceptance imply completeness. */
  lemma LightCheckNeverProvesCompleteness(hash: string -> string, leaves: seq<Leaf>, namespace: string) returns (proof: Proof)
    ensures proof.namespace == namespace && Accepts(proof, Build(hash, leaves))
    ensures proof.leaves != Filter(Sort(leaves, LeafLe), namespace)
  {
    var all := Filter(Sort(leaves, LeafLe), namespace);
    var shown := if all == [] then [Leaf(namespace, "")] else [];
    proof := Proof(namespace, shown, Build(hash, leaves), |leaves|);
    LightCheckIgnoresTheTree(proof, Build(hash, leaves));
  }

  /** The light check does not: a proof with a leaf taken out is still accepted by it, and refused by the full one. */
  lemma OmissionPassesTheLightCheck(hash: string -> string, leaves: seq<Leaf>, namespace: string, i: nat)
    requires i < |Prove(hash, leaves, namespace).leaves|
    ensures var proof := Prove(hash, leaves, namespace);
            var short := proof.(leaves := proof.leaves[..i] + proof.leaves[i + 1..]);
            && Accepts(short, Build(hash, leaves))
            && short.leaves != Filter(Sort(leaves, LeafLe), namespace)
  {
    FilterOfSorted(leaves, namespace);
    var all := Prove(hash, leaves, namespace).leaves;
    var short := all[..i] + all[i + 1..];
    assert |short| == |all| - 1;
    forall j | 0 < j < |short|
      ensures LeafLe(short[j - 1], short[j])
    {
      var (a, b) := (if j - 1 < i then j - 1 else j, if j < i then j else j + 1);
      assert short[j - 1] == all[a] && short[j] == all[b];
    }
  }

  // ---------- small trees ----------

  /** The roots of one, two and three leaves in order, spelled out. */
  lemma RootsOfFew(hash: string -> string, a: Leaf, b: Leaf, c: Leaf)
    requires LeafLe(a, b) && LeafLe(b, c)
    ensures
      var ha := hash("nmt_leaf:" + (a.namespace + ":" + a.dataHash));
      var hb := hash("nmt_leaf:" + (b.namespace + ":" + b.dataHash));
      var hc := hash("nmt_leaf:" + (c.namespace + ":" + c.dataHash));
      var hbc := hash("nmt_node:" + (hb + ":" + (hc + ":" + (b.namespace + ":" + c.namespace))));
      && Build(hash, []) == Node(seq(64, _ => '0'), "", "")
      && Build(hash, [a]) == Node(ha, a.namespace, a.namespace)
      && Build(hash, [b, c]) == Node(hbc, b.namespace, c.namespace)
      && Build(hash, [a, b, c]) ==
         Node(hash("nmt_node:" + (ha + ":" + (hbc + ":" + (a.namespace + ":" + c.namespace)))), a.namespace, c.namespace)
  {
    LeafLeTransitive(a, b, c);
    LeafLeOrders();
    StrLeOrders();
    SortedAlready([a, b, c]);
    SortedAlready([b, c]);
    SortedAlready([a]);
    assert [b, c][..1] == [b] && [b, c][1..] == [c];
    assert [a, b, c][..1] == [a] && [a, b, c][1..] == [b, c];
    assert StrLe(a.namespace, b.namespace) && StrLe(b.namespace, c.namespace);
    TwoLeaves(hash, b, c);
    ThreeLeaves(hash, a, b, c);
  }

  lemma TwoLeaves(hash: string -> string, b: Leaf, c: Leaf)
    requires StrLe(b.namespace, c.namespace)
    ensures BuildTree(hash, [b, c]) == Node(hash(NodeText(BuildTree(hash, [b]), BuildTree(hash, [c]))), b.namespace, c.namespace)
  {
    StrLeOrders();
    assert [b, c][..1] == [b] && [b, c][1..] == [c];
  }

  lemma ThreeLeaves(hash: string -> string, a: Leaf, b: Leaf, c: Leaf)
    requires StrLe(a.namespace, b.namespace) && StrLe(b.namespace, c.namespace)
    ensures BuildTree(hash, [a, b, c]) == Node(hash(NodeText(BuildTree(hash, [a]), BuildTree(hash, [b, c]))), a.namespace, c.namespace)
  {
    StrLeOrders();
    TwoLeaves(hash, b, c);
    assert [a, b, c][..1] == [a] && [a, b, c][1..] == [b, c];
  }

  lemma {:induction false} SortedAlready(s: seq<Leaf>)
    requires Sorted(s, LeafLe)
    ensures Sort(s, LeafLe) == s
  {
    LeafLeOrders();
    SortSorted(s, LeafLe);
    SortRearranges(s, LeafLe);
    SortedUnique(s, Sort(s, LeafLe), LeafLe);
  }
}
