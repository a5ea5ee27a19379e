/** Splitting a whole by weights: the reward budget (src/rewards.rs:449-494) and shard placement (src/node.rs:676-708). */
module Allocation {
  import opened Sequences
  import opened Sorting
  import opened Words

  function Total(s: seq<nat>): nat {
    if s == [] then 0 else Total(s[..|s| - 1]) + s[|s| - 1]
  }

  function Positives(s: seq<nat>): nat {
    if s == [] then 0 else Positives(s[..|s| - 1]) + if s[|s| - 1] > 0 then 1 else 0
  }

  function FloorShare(w: nat, budget: nat, total: nat): nat
    requires total > 0
  {
    w * budget / total
  }

  /** Everybody's floor share. */
  function FloorList(ws: seq<nat>, budget: nat, total: nat): (r: seq<nat>)
    requires total > 0
    ensures |r| == |ws| && forall i :: 0 <= i < |ws| ==> r[i] == FloorShare(ws[i], budget, total)
  {
    if ws == [] then [] else FloorList(ws[..|ws| - 1], budget, total) + [FloorShare(ws[|ws| - 1], budget, total)]
  }

  // ---------- the floors leave less than one unit for every positive weight ----------

  lemma FloorStep(w: nat, budget: nat, total: nat)
    requires total > 0
    ensures var f := FloorShare(w, budget, total);
            f * total <= w * budget <= f * total + (if w > 0 then total - 1 else 0)
    ensures w == 0 ==> FloorShare(w, budget, total) == 0
  {
    var product := w * budget;
    assert product == product / total * total + product % total;
    if w == 0 {
      assert product == 0;
    }
  }

  lemma {:induction false} FloorsBound(ws: seq<nat>, budget: nat, total: nat)
    requires total > 0
    ensures Total(FloorList(ws, budget, total)) * total <= Total(ws) * budget
    ensures Total(ws) * budget <= Total(FloorList(ws, budget, total)) * total + (total - 1) * Positives(ws)
  {
    if ws != [] {
      var rest, w := ws[..|ws| - 1], ws[|ws| - 1];
      FloorsBound(rest, budget, total);
      FloorStep(w, budget, total);
      var floors := FloorList(rest, budget, total);
      var f := FloorShare(w, budget, total);
      assert FloorList(ws, budget, total)[..|ws| - 1] == floors;
      Distribute(Total(floors), f, total);
      Distribute(Total(rest), w, budget);
      Distribute(Positives(rest), 1, total - 1);
    }
  }

  lemma Distribute(a: nat, b: nat, c: nat)
    ensures (a + b) * c == a * c + b * c && (a + b) * c == c * (a + b) && a * c == c * a
  {
  }

  lemma Slack(ws: seq<nat>, budget: nat)
    requires Total(ws) > 0
    ensures Total(FloorList(ws, budget, Total(ws))) <= budget < Total(FloorList(ws, budget, Total(ws))) + Positives(ws)
  {
    FloorsBound(ws, budget, Total(ws));
    SomePositive(ws);
    SlackAlgebra(Total(FloorList(ws, budget, Total(ws))), budget, Total(ws), Positives(ws));
  }

  lemma {:induction false} SomePositive(ws: seq<nat>)
    ensures Positives(ws) > 0 <==> Total(ws) > 0
    ensures Positives(ws) > 0 <==> exists i :: 0 <= i < |ws| && ws[i] > 0
    ensures Positives(ws) <= |ws|
  {
    if ws != [] {
      var rest := ws[..|ws| - 1];
      SomePositive(rest);
      if Positives(rest) > 0 {
        var i :| 0 <= i < |rest| && rest[i] > 0;
        assert ws[i] > 0;
      }
    }
  }

  lemma SlackAlgebra(floors: nat, budget: nat, total: nat, positives: nat)
    requires total > 0 && positives > 0
    requires floors * total <= total * budget <= floors * total + (total - 1) * positives
    ensures floors <= budget < floors + positives
  {
    assert total * budget == budget * total;
    Distribute(floors, positives, total);
    assert (total - 1) * positives == positives * total - positives;
    Cancel(floors, budget, total);
    CancelStrict(budget, floors + positives, total);
  }

  lemma Cancel(a: nat, b: nat, c: nat)
    requires c > 0 && a * c <= b * c
    ensures a <= b
  {
  }

  lemma CancelStrict(a: nat, b: nat, c: nat)
    requires c > 0 && a * c < b * c
    ensures a < b
  {
  }

  lemma {:induction false} TotalUpdate(s: seq<nat>, i: nat, x: nat)
    requires i < |s|
    ensures Total(s[i := x]) == Total(s) - s[i] + x
  {
    var t := s[i := x];
    if i < |s| - 1 {
      TotalUpdate(s[..|s| - 1], i, x);
      assert t[..|s| - 1] == s[..|s| - 1][i := x];
    } else {
      assert t[..|s| - 1] == s[..|s| - 1];
    }
  }

  // ---------- the reward budget ----------

  datatype Split = Amounts(amounts: seq<nat>) | NoPositiveShare

  /** The position that takes what the floors leave: the last if it has weight, else the first that has. */
  ghost predicate Receives(ws: seq<nat>, i: nat) {
    && i < |ws| && ws[i] > 0
    && if ws[|ws| - 1] > 0 then i == |ws| - 1 else forall j :: 0 <= j < i ==> ws[j] == 0
  }

  /** The list with what is left of the budget added at i. */
  function WithRest(floors: seq<nat>, budget: nat, i: nat): seq<nat>
    requires i < |floors| && Total(floors) <= budget
  {
    floors[i := floors[i] + (budget - Total(floors))]
  }

  /** Floor shares, and the remainder to the receiver. */
  ghost predicate Allocates(ws: seq<nat>, budget: nat, amounts: seq<nat>)
    requires Total(ws) > 0
  {
    var floors := FloorList(ws, budget, Total(ws));
    Total(floors) <= budget && exists i: nat :: Receives(ws, i) && amounts == WithRest(floors, budget, i)
  }

  /** The budget is paid to the unit. */
  lemma PaysTheBudget(ws: seq<nat>, budget: nat, amounts: seq<nat>)
    requires Total(ws) > 0 && Allocates(ws, budget, amounts)
    ensures Total(amounts) == budget
  {
    hide FloorList, Total;
    var floors := FloorList(ws, budget, Total(ws));
    var i: nat :| Receives(ws, i) && amounts == WithRest(floors, budget, i);
    TotalUpdate(floors, i, floors[i] + (budget - Total(floors)));
  }

  /** Nobody gets less than the floor share, or more than it by as much as one unit per positive weight. */
  lemma SharesAreFair(ws: seq<nat>, budget: nat, amounts: seq<nat>, i: nat)
    requires Total(ws) > 0 && Allocates(ws, budget, amounts) && i < |ws|
    ensures |amounts| == |ws|
    ensures ws[i] == 0 ==> amounts[i] == 0
    ensures FloorShare(ws[i], budget, Total(ws)) <= amounts[i] <= FloorShare(ws[i], budget, Total(ws)) + Positives(ws) - 1
  {
    Slack(ws, budget);
    FloorStep(ws[i], budget, Total(ws));
    hide Total, FloorList, FloorShare, Positives;
  }

  /** All but one get exactly the floor share. What is left goes to the last if it has weight, and otherwise to the first
      that has. */
  lemma RemainderGoesTo(ws: seq<nat>, budget: nat, amounts: seq<nat>, i: nat)
    requires Total(ws) > 0 && Allocates(ws, budget, amounts) && i < |ws|
    requires if ws[|ws| - 1] > 0 then i < |ws| - 1 else ws[i] == 0 || exists j :: 0 <= j < i && ws[j] > 0
    ensures |amounts| == |ws| && amounts[i] == ws[i] * budget / Total(ws)
  {
    FloorListAt(ws, budget, Total(ws), i);
    hide Total, FloorList;
  }

  lemma {:induction false} FloorListAt(ws: seq<nat>, budget: nat, total: nat, i: nat)
    requires total > 0 && i < |ws|
    ensures FloorList(ws, budget, total)[i] == ws[i] * budget / total
  {
    if i < |ws| - 1 {
      FloorListAt(ws[..|ws| - 1], budget, total, i);
    }
  }

  /** Two lists of amounts for the same weights are the same: the split is deterministic. */
  lemma AllocationUnique(ws: seq<nat>, budget: nat, a: seq<nat>, b: seq<nat>)
    requires Total(ws) > 0 && Allocates(ws, budget, a) && Allocates(ws, budget, b)
    ensures a == b
  {
    hide Total, FloorList;
    var floors := FloorList(ws, budget, Total(ws));
    var i: nat :| Receives(ws, i) && a == WithRest(floors, budget, i);
    var j: nat :| Receives(ws, j) && b == WithRest(floors, budget, j);
    assert i == j;
  }

  /** The amounts of the split. */
  ghost function SplitOf(ws: seq<nat>, budget: nat): (r: seq<nat>)
    requires Total(ws) > 0
    ensures Allocates(ws, budget, r) && |r| == |ws|
  {
    hide Total, FloorList, Positives;
    Slack(ws, budget);
    ReceiverExists(ws);
    var i: nat :| Receives(ws, i);
    WithRest(FloorList(ws, budget, Total(ws)), budget, i)
  }

  lemma ReceiverExists(ws: seq<nat>)
    requires Total(ws) > 0
    ensures exists i: nat :: Receives(ws, i)
  {
    SomePositive(ws);
    if ws[|ws| - 1] > 0 {
      assert Receives(ws, |ws| - 1);
    } else {
      var i := FirstPositive(ws);
      assert Receives(ws, i);
    }
  }

  method SumOf(ws: seq<nat>) returns (total: nat)
    ensures total == Total(ws)
  {
    total := 0;
    var i := 0;
    while i < |ws|
      invariant 0 <= i <= |ws| && total == Total(ws[..i])
    {
      assert ws[..i + 1][..i] == ws[..i];
      total := total + ws[i];
      i := i + 1;
    }
    assert ws[..i] == ws;
  }

  /** Floor shares to all but the last, who gets the rest; a claimant without weight gets nothing. */
  method FirstPass(ws: seq<nat>, budget: nat, total: nat) returns (out: seq<nat>)
    requires ws != [] && total == Total(ws) > 0 && budget <= U64_MAX
    ensures |out| == |ws|
    ensures out[..|ws| - 1] == FloorList(ws[..|ws| - 1], budget, total)
    ensures out[|ws| - 1] == if ws[|ws| - 1] == 0 then 0 else budget - Total(FloorList(ws[..|ws| - 1], budget, total))
    ensures Total(FloorList(ws[..|ws| - 1], budget, total)) <= budget
  {
    hide Total, FloorList, FloorShare;
    var given, last := 0, |ws| - 1;
    assert Total([]) == 0 && FloorList([], budget, total) == [] by { NothingYet(budget, total); }
    out := [];
    PrefixFits(ws, last, budget, total);
    var i := 0;
    while i < |ws|
      invariant 0 <= i <= |ws| && |out| == i
      invariant given == Total(FloorList(ws[..if i <= last then i else last], budget, total))
      invariant out[..if i <= last then i else last] == FloorList(ws[..if i <= last then i else last], budget, total)
      invariant i > last ==> out[last] == if ws[last] == 0 then 0 else budget - given
    {
      var amt := 0;
      if i + 1 == |ws| {
        amt := SaturatingSub(budget, given);
      } else {
        var a := FloorShare(ws[i], budget, total);
        PrefixFits(ws, i + 1, budget, total);
        FloorListSnoc(ws, i, budget, total);
        FloorStep(ws[i], budget, total);
        given := SaturatingAdd(given, a);
        amt := a;
      }
      out := out + [if ws[i] == 0 then 0 else amt];
      i := i + 1;
    }
  }

  lemma {:induction false} WithinBudget(s: seq<nat>, k: nat, budget: nat)
    requires k < |s| && Total(s) <= budget
    ensures s[k] + (budget - Total(s)) <= budget
  {
    if k < |s| - 1 {
      WithinBudget(s[..|s| - 1], k, budget);
    }
  }

  lemma TotalSplit(s: seq<nat>)
    requires s != []
    ensures Total(s) == Total(s[..|s| - 1]) + s[|s| - 1]
  {
  }

  lemma NothingYet(budget: nat, total: nat)
    requires total > 0
    ensures Total([]) == 0 && FloorList([], budget, total) == []
  {
  }

  lemma FloorListSnoc(ws: seq<nat>, i: nat, budget: nat, total: nat)
    requires i < |ws| && total > 0
    ensures FloorList(ws[..i + 1], budget, total) == FloorList(ws[..i], budget, total) + [FloorShare(ws[i], budget, total)]
    ensures Total(FloorList(ws[..i + 1], budget, total))
         == Total(FloorList(ws[..i], budget, total)) + FloorShare(ws[i], budget, total)
  {
    assert ws[..i + 1][..i] == ws[..i];
    var floors := FloorList(ws[..i + 1], budget, total);
    assert floors[..i] == FloorList(ws[..i], budget, total);
  }

  lemma {:induction false} PrefixFits(ws: seq<nat>, i: nat, budget: nat, total: nat)
    requires i <= |ws| && total == Total(ws) > 0
    ensures Total(FloorList(ws[..i], budget, total)) <= budget
    decreases |ws| - i
  {
    if i == |ws| {
      assert ws[..i] == ws;
      Slack(ws, budget);
    } else {
      PrefixFits(ws, i + 1, budget, total);
      FloorListSnoc(ws, i, budget, total);
    }
  }

  /** After the first pass either the last entry has taken the remainder or only the floors are paid. */
  lemma FirstPassShape(ws: seq<nat>, budget: nat, total: nat, out: seq<nat>)
    requires ws != [] && total == Total(ws) > 0 && |out| == |ws|
    requires out[..|ws| - 1] == FloorList(ws[..|ws| - 1], budget, total)
    requires Total(FloorList(ws[..|ws| - 1], budget, total)) <= budget
    requires out[|ws| - 1] == if ws[|ws| - 1] == 0 then 0 else budget - Total(FloorList(ws[..|ws| - 1], budget, total))
    ensures var floors := FloorList(ws, budget, total);
            && Total(floors) <= budget
            && (ws[|ws| - 1] == 0 ==> out == floors)
            && (ws[|ws| - 1] > 0 ==> Total(out) == budget && out == WithRest(floors, budget, |ws| - 1))
  {
    var last := |ws| - 1;
    hide Total, FloorList, FloorShare, Positives;
    Slack(ws, budget);
    TotalSplit(out);
    FloorListSnoc(ws, last, budget, total);
    assert ws[..last + 1] == ws;
    FloorStep(ws[last], budget, total);
    assert out == out[..last] + [out[last]];
  }

  lemma NothingLeft(ws: seq<nat>, budget: nat, out: seq<nat>)
    requires Total(ws) > 0 && |out| == |ws| && Total(out) >= budget
    requires var floors := FloorList(ws, budget, Total(ws));
             && Total(floors) <= budget
             && (ws[|ws| - 1] == 0 ==> out == floors)
             && (ws[|ws| - 1] > 0 ==> out == WithRest(floors, budget, |ws| - 1))
    ensures Allocates(ws, budget, out)
  {
    SomePositive(ws);
    hide Total, FloorList, FloorShare, Positives;
    if ws[|ws| - 1] > 0 {
      assert Receives(ws, |ws| - 1);
    } else {
      var k := FirstPositive(ws);
      assert Receives(ws, k);
      assert out == WithRest(out, budget, k);
    }
  }

  lemma {:induction false} FirstPositive(ws: seq<nat>) returns (k: nat)
    requires exists i :: 0 <= i < |ws| && ws[i] > 0
    ensures k < |ws| && ws[k] > 0 && forall j :: 0 <= j < k ==> ws[j] == 0
  {
    var rest := ws[..|ws| - 1];
    if i :| 0 <= i < |rest| && rest[i] > 0 {
      k := FirstPositive(rest);
      assert ws[k] == rest[k] && forall j :: 0 <= j < k ==> ws[j] == rest[j];
    } else {
      k := |ws| - 1;
      assert forall j :: 0 <= j < |rest| ==> ws[j] == rest[j];
    }
  }

  /** The passes over the finished list: clear weightless entries, add up, hand out what is missing. */
  method AllocateBudget(ws: seq<nat>, budget: nat) returns (r: Split)
    requires budget <= U64_MAX
    ensures r.NoPositiveShare? <==> Total(ws) == 0
    ensures r.Amounts? ==> Allocates(ws, budget, r.amounts)
  {
    hide Total, FloorList, FloorShare, Positives;
    var total := SumOf(ws);
    if total == 0 {
      return NoPositiveShare;
    }
    SomePositive(ws);
    var out := FirstPass(ws, budget, total);
    ghost var first := out;
    var i := 0;
    while i < |ws|
      invariant 0 <= i <= |ws| && out == first
    {
      if ws[i] == 0 {
        FloorStep(0, budget, total);
        assert first[i] == 0 by {
          assert i < |ws| - 1 ==> first[..|ws| - 1][i] == FloorShare(ws[i], budget, total);
        }
        out := out[i := 0];
      }
      i := i + 1;
    }
    var paid := SumOf(out);
    FirstPassShape(ws, budget, total, out);
    if paid < budget {
      var k := FindPositive(ws);
      assert Receives(ws, k);
      assert out == FloorList(ws, budget, total) && paid == Total(out);
      WithinBudget(out, k, budget);
      assert SaturatingAdd(out[k], budget - paid) == out[k] + (budget - paid);
      out := out[k := SaturatingAdd(out[k], budget - paid)];
      assert out == WithRest(FloorList(ws, budget, total), budget, k);
    } else {
      NothingLeft(ws, budget, out);
    }
    r := Amounts(out);
  }

  method FindPositive(ws: seq<nat>) returns (k: nat)
    requires exists i :: 0 <= i < |ws| && ws[i] > 0
    ensures k < |ws| && ws[k] > 0 && forall j :: 0 <= j < k ==> ws[j] == 0
  {
    k := 0;
    while ws[k] == 0
      invariant k < |ws| && forall j :: 0 <= j < k ==> ws[j] == 0
      decreases |ws| - k
    {
      k := k + 1;
    }
  }

  // ---------- shard placement ----------

  /** A device without capacity still counts for one. */
  function Weights(caps: seq<nat>): (r: seq<nat>)
    ensures |r| == |caps| && forall i :: 0 <= i < |caps| ==> r[i] == (if caps[i] > 1 then caps[i] else 1)
  {
    seq(|caps|, i requires 0 <= i < |caps| => if caps[i] > 1 then caps[i] else 1)
  }

  function CapAt(caps: seq<nat>, d: nat): nat {
    if d < |caps| then caps[d] else 0
  }

  /** Larger capacities first. */
  function ByCapacity(caps: seq<nat>): (nat, nat) -> bool {
    (a: nat, b: nat) => CapAt(caps, b) <= CapAt(caps, a)
  }

  /** Exactly n placed; every device within one of its floor share; the extra ones where capacity is largest. */
  ghost predicate Placed(n: nat, caps: seq<nat>, placement: seq<nat>)
    requires Total(Weights(caps)) > 0
  {
    var floors := FloorList(Weights(caps), n, Total(Weights(caps)));
    && |placement| == n
    && (forall i :: 0 <= i < |placement| ==> placement[i] < |caps|)
    && (forall d: nat :: d < |caps| ==> floors[d] <= multiset(placement)[d] <= floors[d] + 1)
    && (forall d: nat, e: nat :: d < |caps| && e < |caps| && multiset(placement)[d] > floors[d] && multiset(placement)[e] == floors[e]
          ==> caps[d] >= caps[e])
  }

  /** The listing of the counts: device 0 as often as its count, then device 1, and so on. */
  function Listing(counts: seq<nat>): seq<nat> {
    if counts == [] then []
    else Listing(counts[..|counts| - 1]) + Repeat(|counts| - 1, counts[|counts| - 1])
  }

  lemma {:induction false} ListingCounts(counts: seq<nat>)
    ensures |Listing(counts)| == Total(counts)
    ensures forall i :: 0 <= i < |Listing(counts)| ==> Listing(counts)[i] < |counts|
    ensures forall d: nat :: d < |counts| ==> multiset(Listing(counts))[d] == counts[d]
  {
    if counts != [] {
      var rest, d := counts[..|counts| - 1], |counts| - 1;
      ListingCounts(rest);
      assert Listing(counts) == Listing(rest) + Repeat(d, counts[d]) && Total(counts) == Total(rest) + counts[d];
      hide Listing, Total;
      ListedMore(Listing(rest), counts);
    }
  }

  lemma ListedMore(list: seq<nat>, counts: seq<nat>)
    requires counts != []
    requires forall i :: 0 <= i < |list| ==> list[i] < |counts| - 1
    requires forall d: nat :: d < |counts| - 1 ==> multiset(list)[d] == counts[..|counts| - 1][d]
    ensures
      var more := list + Repeat(|counts| - 1, counts[|counts| - 1]);
      && |more| == |list| + counts[|counts| - 1]
      && (forall i :: 0 <= i < |more| ==> more[i] < |counts|)
      && forall d: nat :: d < |counts| ==> multiset(more)[d] == counts[d]
  {
    forall d: nat | d < |counts|
      ensures multiset(list + Repeat(|counts| - 1, counts[|counts| - 1]))[d] == counts[d]
    {
      CopiesAppended(list, |counts| - 1, counts[|counts| - 1], d);
    }
  }

  function Repeat(d: nat, n: nat): seq<nat> {
    seq(n, _ => d)
  }

  lemma CopiesAppended(s: seq<nat>, d: nat, n: nat, e: nat)
    requires forall i :: 0 <= i < |s| ==> s[i] < d
    ensures multiset(s + Repeat(d, n))[e] == if e == d then n else multiset(s)[e]
  {
    CopiesCount(d, n, e);
    hide Repeat;
    assert d !in multiset(s);
  }

  lemma {:induction false} CopiesCount(d: nat, n: nat, e: nat)
    ensures multiset(Repeat(d, n))[e] == if e == d then n else 0
  {
    if n > 0 {
      CopiesCount(d, n - 1, e);
      assert Repeat(d, n) == Repeat(d, n - 1) + [d];
    }
  }

  method FillFloors(alloc: array<nat>, weights: seq<nat>, n: nat, total: nat) returns (laidOut: nat)
    requires alloc.Length == |weights| && total > 0
    modifies alloc
    ensures alloc[..] == FloorList(weights, n, total) && laidOut == Total(alloc[..])
  {
    hide Total, FloorList, FloorShare;
    NothingYet(n, total);
    laidOut := 0;
    assert weights[..0] == [] && alloc[..0] == [];
    var d := 0;
    while d < |weights|
      invariant 0 <= d <= |weights|
      invariant alloc[..d] == FloorList(weights[..d], n, total) && laidOut == Total(alloc[..d])
    {
      var share := FloorShare(weights[d], n, total);
      FloorListSnoc(weights, d, n, total);
      alloc[d] := share;
      assert alloc[..d + 1] == alloc[..d] + [share];
      laidOut := laidOut + share;
      d := d + 1;
    }
    assert weights[..d] == weights && alloc[..d] == alloc[..];
  }

  /** One more for each of the first `remainder` devices of the order. */
  method HandOut(alloc: array<nat>, order: seq<nat>, remainder: nat)
    requires NoDup(order) && remainder <= |order| && forall i :: 0 <= i < |order| ==> order[i] < alloc.Length
    modifies alloc
    ensures forall d :: 0 <= d < alloc.Length ==> alloc[d] == old(alloc[d]) + if d in order[..remainder] then 1 else 0
    ensures Total(alloc[..]) == old(Total(alloc[..])) + remainder
  {
    hide Total;
    var left, i := remainder, 0;
    while i < |order| && left > 0
      invariant 0 <= i <= remainder && left == remainder - i
      invariant forall d :: 0 <= d < alloc.Length ==> alloc[d] == old(alloc[d]) + if d in order[..i] then 1 else 0
      invariant Total(alloc[..]) == old(Total(alloc[..])) + i
    {
      var d := order[i];
      ghost var before := alloc[..];
      assert d !in order[..i];
      assert order[..i + 1] == order[..i] + [d];
      TotalUpdate(before, d, before[d] + 1);
      alloc[d] := alloc[d] + 1;
      assert alloc[..] == before[d := before[d] + 1];
      left := left - 1;
      i := i + 1;
    }
  }

  method ListDevices(counts: seq<nat>) returns (placement: seq<nat>)
    ensures placement == Listing(counts)
  {
    placement := [];
    var d := 0;
    while d < |counts|
      invariant 0 <= d <= |counts| && placement == Listing(counts[..d])
    {
      var j := 0;
      while j < counts[d]
        invariant 0 <= j <= counts[d] && placement == Listing(counts[..d]) + Repeat(d, j)
      {
        placement := placement + [d];
        j := j + 1;
      }
      assert counts[..d + 1][..d] == counts[..d];
      d := d + 1;
    }
    assert counts[..d] == counts;
  }

  lemma WeightsPositive(caps: seq<nat>)
    requires caps != []
    ensures Total(Weights(caps)) > 0 && Positives(Weights(caps)) <= |caps|
  {
    SomePositive(Weights(caps));
    assert Weights(caps)[0] > 0;
  }

  lemma NonePlaced(caps: seq<nat>)
    requires Total(Weights(caps)) > 0
    ensures Placed(0, caps, [])
  {
    var ws := Weights(caps);
    forall d: nat | d < |caps|
      ensures FloorShare(ws[d], 0, Total(ws)) == 0
    {
      assert ws[d] * 0 == 0;
    }
  }

  /** The order lists every device once, larger capacities first. */
  lemma OrderListsAll(caps: seq<nat>, order: seq<nat>)
    requires order == Sort(Upto(|caps|), ByCapacity(caps))
    ensures |order| == |caps| && NoDup(order) && Sorted(order, ByCapacity(caps))
    ensures forall d: nat :: d in order <==> d < |caps|
    ensures forall i :: 0 <= i < |order| ==> order[i] < |caps|
  {
    var all := Upto(|caps|);
    SortSorted(all, ByCapacity(caps));
    SortRearranges(all, ByCapacity(caps));
    SameElements(order, all);
    forall d: nat
      ensures d in all <==> d < |caps|
    {
      assert d < |caps| ==> all[d] == d;
    }
    forall i | 0 <= i < |order|
      ensures order[i] < |caps|
    {
      assert order[i] in order;
    }
    forall i, j | 0 <= i < j < |order|
      ensures order[i] != order[j]
    {
      MultiplicityAtMostOne(all, order[i]);
      TwiceCounted(order, i, j);
    }
  }

  lemma TwiceCounted(s: seq<nat>, i: int, j: int)
    requires 0 <= i < j < |s|
    ensures s[i] == s[j] ==> multiset(s)[s[i]] >= 2
  {
    assert s == s[..j] + [s[j]] + s[j + 1..];
    assert s[..j] == s[..i] + [s[i]] + s[i + 1..j];
  }

  lemma InPrefix(s: seq<nat>, n: nat, j: nat)
    requires n <= |s| && j < |s|
    ensures j < n ==> s[j] in s[..n]
  {
  }

  lemma LargestFirst(n: nat, caps: seq<nat>, order: seq<nat>, extra: nat, floors: seq<nat>, counts: seq<nat>, placement: seq<nat>)
    requires Total(Weights(caps)) > 0
    requires floors == FloorList(Weights(caps), n, Total(Weights(caps)))
    requires |order| == |caps| && |counts| == |caps| && Sorted(order, ByCapacity(caps)) && extra <= |order|
    requires forall d: nat :: d in order <==> d < |caps|
    requires forall d: nat :: d < |caps| ==> counts[d] == floors[d] + if d in order[..extra] then 1 else 0
    requires |placement| == n && forall i :: 0 <= i < |placement| ==> placement[i] < |caps|
    requires forall d: nat :: d < |caps| ==> multiset(placement)[d] == counts[d]
    ensures Placed(n, caps, placement)
  {
    forall d: nat, e: nat | d < |caps| && e < |caps| && d in order[..extra] && e !in order[..extra]
      ensures caps[d] >= caps[e]
    {
      var i :| 0 <= i < extra && order[i] == d;
      assert e in order;
      var j :| 0 <= j < |order| && order[j] == e;
      InPrefix(order, extra, j);
      assert ByCapacity(caps)(order[i], order[j]);
    }
  }

  /** What the floors leave over is at most one for each device. */
  lemma LeftOver(caps: seq<nat>, n: nat, total: nat)
    requires caps != [] && total == Total(Weights(caps)) > 0
    ensures
      var laidOut := Total(FloorList(Weights(caps), n, total));
      SaturatingSub(n, laidOut) <= |caps| && laidOut + SaturatingSub(n, laidOut) == n
  {
    hide Total, FloorList, Positives;
    Slack(Weights(caps), n);
    WeightsPositive(caps);
  }

  /** The counts of the devices: floor shares, and one more where the order comes first. */
  method Counts(n: nat, caps: seq<nat>, total: nat) returns (counts: seq<nat>, ghost order: seq<nat>, ghost extra: nat)
    requires caps != [] && total == Total(Weights(caps)) > 0
    ensures |order| == |caps| == |counts| && extra <= |order| && Sorted(order, ByCapacity(caps))
    ensures forall d: nat :: d in order <==> d < |caps|
    ensures forall d: nat :: d < |caps| ==>
      counts[d] == FloorList(Weights(caps), n, total)[d] + if d in order[..extra] then 1 else 0
    ensures Total(counts) == n
  {
    var weights := Weights(caps);
    LeftOver(caps, n, total);
    hide *;
    var alloc := new nat[|caps|];
    var laidOut := FillFloors(alloc, weights, n, total);
    var remainder := SaturatingSub(n, laidOut);
    var sorted := Sort(Upto(|caps|), ByCapacity(caps));
    OrderListsAll(caps, sorted);
    HandOut(alloc, sorted, remainder);
    counts, order, extra := alloc[..], sorted, remainder;
  }

  method CapacityWeightedPlacement(n: nat, peers: seq<nat>) returns (placement: seq<nat>)
    ensures Total(Weights([U64_MAX] + peers)) > 0
    ensures Placed(n, [U64_MAX] + peers, placement)
  {
    var caps := [U64_MAX] + peers;
    WeightsPositive(caps);
    hide Total, FloorList, FloorShare, Listing;
    if n == 0 {
      placement := [];
      NonePlaced(caps);
      return;
    }
    var total := SumOf(Weights(caps));
    ghost var order, extra;
    var counts;
    counts, order, extra := Counts(n, caps, total);
    placement := ListDevices(counts);
    ListingCounts(counts);
    assert placement[..n] == placement;
    placement := placement[..if |placement| < n then |placement| else n];
    LargestFirst(n, caps, order, extra, FloorList(Weights(caps), n, total), counts, placement);
  }
}
