/** What every run of a live node keeps, whatever the events and whatever the outside answers (src/live.rs:94-436): its
    rewards, its claims, its frozen roots, and when an epoch can be closed. */
module LiveRuns {
  import opened Sequences
  import opened Allocation
  import opened Words
  import opened Seals
  import opened LiveStates
  import Vdf
  import Goldilocks

  datatype Event =
    | Ingest(sig: Signal, folds: bool)
    | Open(signalRoot: Id)
    | Close(closing: Closing)
    | Accept(cert: Certificate, inputs: Option<Inputs>)
    | Join(tip: Tip)
    | Advance(height: nat, root: Id, folds: bool)
    | Fund(amount: Amount)

  ghost function Next(setup: Setup, s: NodeState, e: Event): NodeState {
    match e
    case Ingest(sig, folds) => Ingested(setup, s, sig, folds).0
    case Open(signalRoot) => BeaconOpened(setup, s, signalRoot).0
    case Close(closing) => Closed(setup, s, closing).0
    case Accept(cert, inputs) => Accepted(setup, s, cert, inputs).0
    case Join(tip) => Joined(setup, s, tip).0
    case Advance(height, root, folds) => Advanced(setup, s, height, root, folds).0
    case Fund(amount) => s.(budget := amount)
  }

  ghost function AfterFrom(setup: Setup, s: NodeState, events: seq<Event>): NodeState {
    if events == [] then s
    else Next(setup, AfterFrom(setup, s, events[..|events| - 1]), events[|events| - 1])
  }

  ghost function After(setup: Setup, events: seq<Event>): NodeState {
    AfterFrom(setup, Start(setup), events)
  }

  // ---------- what an event brings about ----------

  /** The receipt that an event presents for credit. */
  ghost function Presented(setup: Setup, s: NodeState, e: Event): Option<Receipt> {
    match e
    case Close(c) =>
      var ready := Readied(setup.fns, Funded(s), c.signalRoot, NoClaims);
      if !setup.mode.Light? && ready.1.Ok? && Settles(setup.fns, ready.0, c.work)
         && ReceiptHolds(setup.fns, ReceiptOf(setup.fns, ready.0, c.base, c.work))
      then Some(ReceiptOf(setup.fns, ready.0, c.base, c.work)) else None
    case Accept(cert, inputs) => if CertHolds(setup.fns, cert, inputs) then cert.settle else None
    case _ => None
  }

  /** The receipt that an event credits: the one presented, unless one with its hash was credited before. */
  ghost function NewCredit(setup: Setup, s: NodeState, e: Event): seq<Receipt> {
    var rec := Presented(setup, s, e);
    if rec.Some? && rec.value.receiptHash !in s.credited then [rec.value] else []
  }

  ghost function NewEntries(setup: Setup, s: NodeState, e: Event): seq<Pending> {
    var added := NewCredit(setup, s, e);
    if added == [] then [] else Entry(setup.neuron, added[0], if e.Accept? then e.cert.tip.height else s.tip.height)
  }

  /** Whether an event ends in the maturing of what is due. */
  ghost predicate Matures(setup: Setup, s: NodeState, e: Event) {
    match e
    case Ingest(sig, folds) => !setup.mode.Light? && sig.id !in s.signals && folds
    case Close(closing) => Closed(setup, s, closing).1.Ok?
    case Accept(cert, inputs) => CertHolds(setup.fns, cert, inputs)
    case _ => false
  }

  /** One matured payment: the entry, and the height at which it matured. */
  datatype Payment = Payment(entry: Pending, height: nat)

  function PaidAt(ps: seq<Pending>, height: nat): (r: seq<Payment>)
    ensures |r| == |ps| && forall i :: 0 <= i < |r| ==> r[i] == Payment(ps[i], height)
  {
    seq(|ps|, i requires 0 <= i < |ps| => Payment(ps[i], height))
  }

  ghost function NewPayments(setup: Setup, s: NodeState, e: Event): seq<Payment> {
    var height := Next(setup, s, e).tip.height;
    if Matures(setup, s, e) then PaidAt(Ripe(s.pending + NewEntries(setup, s, e), height, setup.depth), height) else []
  }

  /** The id that an event adds to the claims. */
  ghost function NewClaim(setup: Setup, s: NodeState, e: Event): seq<Id> {
    if e.Ingest? && !setup.mode.Light? && e.sig.id !in s.signals && s.epoch.phase == Propose then [e.sig.id] else []
  }

  // ---------- what a run brings about ----------

  /** The receipts credited, in order. */
  ghost function CreditLog(setup: Setup, events: seq<Event>): seq<Receipt> {
    if events == [] then []
    else
      var before := events[..|events| - 1];
      CreditLog(setup, before) + NewCredit(setup, After(setup, before), events[|events| - 1])
  }

  /** The pending rewards they brought. */
  ghost function Entries(setup: Setup, events: seq<Event>): seq<Pending> {
    if events == [] then []
    else
      var before := events[..|events| - 1];
      Entries(setup, before) + NewEntries(setup, After(setup, before), events[|events| - 1])
  }

  /** The payments made. */
  ghost function Payments(setup: Setup, events: seq<Event>): seq<Payment> {
    if events == [] then []
    else
      var before := events[..|events| - 1];
      Payments(setup, before) + NewPayments(setup, After(setup, before), events[|events| - 1])
  }

  /** The ids claimed. */
  ghost function ClaimLog(setup: Setup, events: seq<Event>): seq<Id> {
    if events == [] then []
    else
      var before := events[..|events| - 1];
      ClaimLog(setup, before) + NewClaim(setup, After(setup, before), events[|events| - 1])
  }

  /** The claim ids of the epochs that were closed. */
  ghost function PastClaims(setup: Setup, events: seq<Event>): seq<Id> {
    if events == [] then []
    else
      var before, e := events[..|events| - 1], events[|events| - 1];
      var s := After(setup, before);
      PastClaims(setup, before) + if e.Close? && Closed(setup, s, e.closing).1.Ok? then ClaimIds(s.epoch.claims) else []
  }

  function Hashes(log: seq<Receipt>): (r: seq<Id>)
    ensures |r| == |log| && forall i :: 0 <= i < |r| ==> r[i] == log[i].receiptHash
  {
    seq(|log|, i requires 0 <= i < |log| => log[i].receiptHash)
  }

  function ShareSum(log: seq<Receipt>, neuron: Id): nat {
    if log == [] then 0 else ShareSum(log[..|log| - 1], neuron) + ShareOf(log[|log| - 1].shares, neuron)
  }

  function PaidSum(ps: seq<Payment>): nat {
    if ps == [] then 0 else PaidSum(ps[..|ps| - 1]) + ps[|ps| - 1].entry.amount
  }

  function Paid(ps: seq<Payment>): (r: seq<Pending>)
    ensures |r| == |ps| && forall i :: 0 <= i < |r| ==> r[i] == ps[i].entry
  {
    seq(|ps|, i requires 0 <= i < |ps| => ps[i].entry)
  }

  // ---------- receipts ----------

  lemma AllocatedTotal(ws: seq<nat>, budget: nat)
    requires Total(ws) > 0
    ensures Total(SplitOf(ws, budget)) == budget
  {
    PaysTheBudget(ws, budget, SplitOf(ws, budget));
  }

  /** The receipt of an epoch pays its budget, split by the weights. */
  lemma ReceiptPays(fns: Functions, e: EpochState, base: Id, work: SettleWork)
    requires Settles(fns, e, work)
    ensures Pays(ReceiptOf(fns, e, base, work)) && ReceiptOf(fns, e, base, work).budget == e.budget
    ensures Allocates(WeightsOf(work.contributors), e.budget, AmountsOf(ReceiptOf(fns, e, base, work).shares))
  {
    hide Total, Allocates, Proved, SealHolds, BeaconHolds;
    var amounts := SplitOf(WeightsOf(work.contributors), e.budget);
    AllocatedTotal(WeightsOf(work.contributors), e.budget);
    assert AmountsOf(Shares(work.contributors, amounts)) == amounts;
  }

  /** No neuron's share of a receipt exceeds the receipt's budget. */
  lemma ShareWithinBudget(r: Receipt, neuron: Id)
    requires Pays(r)
    ensures ShareOf(r.shares, neuron) <= r.budget
  {
    ShareWithinTotal(r.shares, neuron);
  }

  lemma {:induction false} ShareWithinTotal(shares: seq<Share>, neuron: Id)
    ensures ShareOf(shares, neuron) <= Total(AmountsOf(shares))
  {
    if shares != [] {
      ShareWithinTotal(shares[1..], neuron);
      TotalCons(shares[0].amount, AmountsOf(shares[1..]));
      assert AmountsOf(shares) == [shares[0].amount] + AmountsOf(shares[1..]);
    }
  }

  lemma {:induction false} TotalCons(x: nat, s: seq<nat>)
    ensures Total([x] + s) == x + Total(s)
  {
    if s == [] {
      assert [x] + s == [x] && [x][..0] == [];
    } else {
      TotalCons(x, s[..|s| - 1]);
      assert ([x] + s)[..|s|] == [x] + s[..|s| - 1];
    }
  }

  // ---------- maturing ----------

  lemma NothingMatured(h: nat, depth: nat)
    ensures Kept([], h, depth) == [] && Ripe([], h, depth) == [] && PendingSum([]) == 0
  {
  }

  lemma PendingSumSnoc(ps: seq<Pending>, p: Pending)
    ensures PendingSum(ps + [p]) == PendingSum(ps) + p.amount
  {
    assert (ps + [p])[..|ps|] == ps;
  }

  lemma MatureStep(ps: seq<Pending>, i: nat, height: nat, depth: nat)
    requires i < |ps|
    ensures Kept(ps[..i + 1], height, depth) == Kept(ps[..i], height, depth) + if Due(ps[i], height, depth) then [] else [ps[i]]
    ensures Ripe(ps[..i + 1], height, depth) == Ripe(ps[..i], height, depth) + if Due(ps[i], height, depth) then [ps[i]] else []
    ensures PendingSum(Ripe(ps[..i + 1], height, depth))
         == PendingSum(Ripe(ps[..i], height, depth)) + if Due(ps[i], height, depth) then ps[i].amount else 0
  {
    hide Due, PendingSum;
    assert ps[..i + 1][..i] == ps[..i];
    PendingSumSnoc(Ripe(ps[..i], height, depth), ps[i]);
    assert Ripe(ps[..i], height, depth) + [] == Ripe(ps[..i], height, depth);
  }

  /** Maturing splits the pending entries, and their sum. */
  lemma {:induction false} KeptAndRipeSplit(ps: seq<Pending>, height: nat, depth: nat)
    ensures multiset(Kept(ps, height, depth)) + multiset(Ripe(ps, height, depth)) == multiset(ps)
    ensures PendingSum(Kept(ps, height, depth)) + PendingSum(Ripe(ps, height, depth)) == PendingSum(ps)
  {
    if ps == [] {
      NothingMatured(height, depth);
    } else {
      var i := |ps| - 1;
      var rest, p := ps[..i], ps[i];
      KeptAndRipeSplit(rest, height, depth);
      MatureLast(ps, height, depth);
      hide Due, PendingSum, Kept, Ripe;
      OneMoreSplit(rest, p, Kept(rest, height, depth), Ripe(rest, height, depth), Due(p, height, depth));
    }
  }

  lemma MatureLast(ps: seq<Pending>, height: nat, depth: nat)
    requires ps != []
    ensures
      var i := |ps| - 1;
      && ps == ps[..i] + [ps[i]]
      && Kept(ps, height, depth) == Kept(ps[..i], height, depth) + (if Due(ps[i], height, depth) then [] else [ps[i]])
      && Ripe(ps, height, depth) == Ripe(ps[..i], height, depth) + (if Due(ps[i], height, depth) then [ps[i]] else [])
  {
    hide Due;
  }

  lemma OneMoreSplit(ps: seq<Pending>, p: Pending, kept: seq<Pending>, ripe: seq<Pending>, due: bool)
    requires multiset(kept) + multiset(ripe) == multiset(ps) && PendingSum(kept) + PendingSum(ripe) == PendingSum(ps)
    ensures
      var kept', ripe' := kept + (if due then [] else [p]), ripe + (if due then [p] else []);
      && multiset(kept') + multiset(ripe') == multiset(ps + [p])
      && PendingSum(kept') + PendingSum(ripe') == PendingSum(ps + [p])
  {
    hide PendingSum;
    PendingSumSnoc(ps, p);
    PendingSumSnoc(kept, p);
    PendingSumSnoc(ripe, p);
    assert kept + [] == kept && ripe + [] == ripe;
  }

  /** What was pending is kept exactly if it is not due, and ripe exactly if it is. */
  lemma {:induction false} KeptAndRipe(ps: seq<Pending>, height: nat, depth: nat, p: Pending)
    ensures p in Kept(ps, height, depth) <==> p in ps && height < SaturatingAdd(p.mintHeight, depth)
    ensures p in Ripe(ps, height, depth) <==> p in ps && height >= SaturatingAdd(p.mintHeight, depth)
  {
    if ps != [] {
      var rest, x := ps[..|ps| - 1], ps[|ps| - 1];
      KeptAndRipe(rest, height, depth, p);
      assert p in ps <==> p in rest || p == x;
    }
  }

  lemma {:induction false} PaidSumAppend(log: seq<Payment>, ps: seq<Pending>, height: nat)
    ensures PaidSum(log + PaidAt(ps, height)) == PaidSum(log) + PendingSum(ps)
  {
    if ps == [] {
      assert log + PaidAt(ps, height) == log;
    } else {
      var rest := ps[..|ps| - 1];
      PaidSumAppend(log, rest, height);
      assert (log + PaidAt(ps, height))[..|log| + |ps| - 1] == log + PaidAt(rest, height);
    }
  }

  lemma CappedAdds(a: nat, b: nat)
    ensures Capped(Capped(a) + b) == Capped(a + b)
  {
  }

  // ---------- rewards over a run ----------

  /** What becomes of the rewards when an event presents this receipt, and matures or not. */
  ghost predicate Rewarded(setup: Setup, s: NodeState, after: NodeState, added: seq<Pending>, presented: Option<Receipt>, matures: bool) {
    var pending := s.pending + added;
    && after.pending == (if matures then Kept(pending, after.tip.height, setup.depth) else pending)
    && after.matured == (if matures then Capped(s.matured + PendingSum(Ripe(pending, after.tip.height, setup.depth))) else s.matured)
    && after.credited == s.credited + (if presented.Some? then {presented.value.receiptHash} else {})
  }

  /** What one event makes of the rewards. */
  lemma RewardStep(setup: Setup, s: NodeState, e: Event)
    ensures Rewarded(setup, s, Next(setup, s, e), NewEntries(setup, s, e), Presented(setup, s, e), Matures(setup, s, e))
  {
    hide Kept, Ripe, PendingSum, Capped, Entry, Closed, Ingested, Accepted, CertHolds, Readied, Rewarded;
    match e {
      case Ingest(sig, folds) => { IngestRewards(setup, s, sig, folds); }
      case Close(closing) => { CloseRewards(setup, s, closing); }
      case Accept(cert, inputs) => { AcceptRewards(setup, s, cert, inputs); }
      case _ => { NoRewards(setup, s, Next(setup, s, e)); }
    }
  }

  lemma NoRewards(setup: Setup, s: NodeState, t: NodeState)
    requires t.pending == s.pending && t.matured == s.matured && t.credited == s.credited
    ensures Rewarded(setup, s, t, [], None, false)
  {
    assert s.pending + [] == s.pending && s.credited + {} == s.credited;
  }

  lemma IngestRewards(setup: Setup, s: NodeState, sig: Signal, folds: bool)
    ensures Rewarded(setup, s, Ingested(setup, s, sig, folds).0, [], None, Matures(setup, s, Ingest(sig, folds)))
  {
    hide Kept, Ripe, PendingSum, Capped;
    assert s.pending + [] == s.pending && s.credited + {} == s.credited;
  }

  lemma CreditedAgain(credited: set<Id>, h: Id)
    requires h in credited
    ensures credited + {h} == credited
  {
  }

  lemma AcceptRewards(setup: Setup, s: NodeState, cert: Certificate, inputs: Option<Inputs>)
    ensures
      var e := Accept(cert, inputs);
      Rewarded(setup, s, Accepted(setup, s, cert, inputs).0, NewEntries(setup, s, e), Presented(setup, s, e), Matures(setup, s, e))
  {
    hide Kept, Ripe, PendingSum, Capped, Entry, CertHolds;
    assert s.pending + [] == s.pending && s.credited + {} == s.credited;
    if cert.settle.Some? && cert.settle.value.receiptHash in s.credited {
      CreditedAgain(s.credited, cert.settle.value.receiptHash);
    }
  }

  lemma CloseRewards(setup: Setup, s: NodeState, c: Closing)
    ensures Rewarded(setup, s, Closed(setup, s, c).0, NewEntries(setup, s, Close(c)), Presented(setup, s, Close(c)), Closed(setup, s, c).1.Ok?)
  {
    hide Kept, Ripe, PendingSum, Capped, Entry, Settles, ReceiptOf, Readied, ReceiptHolds, CertHolds, CertificateFor;
    assert s.pending + [] == s.pending && s.credited + {} == s.credited;
    var rec := Presented(setup, s, Close(c));
    if rec.Some? && rec.value.receiptHash in s.credited {
      CreditedAgain(s.credited, rec.value.receiptHash);
    }
  }

  lemma LogAppend(log: seq<Receipt>, rec: Receipt, neuron: Id)
    ensures ShareSum(log + [rec], neuron) == ShareSum(log, neuron) + ShareOf(rec.shares, neuron)
  {
    assert (log + [rec])[..|log|] == log;
  }

  lemma EntrySum(pending: seq<Pending>, neuron: Id, rec: Receipt, mintHeight: nat)
    ensures PendingSum(pending + Entry(neuron, rec, mintHeight)) == PendingSum(pending) + ShareOf(rec.shares, neuron)
  {
    hide ShareOf;
    if ShareOf(rec.shares, neuron) == 0 {
      assert pending + [] == pending;
    } else {
      PendingSumSnoc(pending, Pending(ShareOf(rec.shares, neuron), rec.receiptHash, mintHeight));
    }
  }

  /** What the new entries add is the share of the receipt credited. */
  lemma CreditStep(setup: Setup, s: NodeState, e: Event, log: seq<Receipt>)
    ensures PendingSum(s.pending + NewEntries(setup, s, e)) + ShareSum(log, setup.neuron)
         == PendingSum(s.pending) + ShareSum(log + NewCredit(setup, s, e), setup.neuron)
  {
    hide Presented, PendingSum, ShareSum, Entry;
    var added := NewCredit(setup, s, e);
    if added == [] {
      assert log + added == log && s.pending + [] == s.pending;
    } else {
      LogAppend(log, added[0], setup.neuron);
      EntrySum(s.pending, setup.neuron, added[0], if e.Accept? then e.cert.tip.height else s.tip.height);
    }
  }

  /** Payments of one event, against the balance. */
  lemma PaymentStep(setup: Setup, s: NodeState, e: Event, paid: seq<Payment>)
    requires s.matured == Capped(PaidSum(paid))
    ensures
      var after := Next(setup, s, e);
      && after.matured == Capped(PaidSum(paid + NewPayments(setup, s, e)))
      && PendingSum(after.pending) + PaidSum(paid + NewPayments(setup, s, e))
         == PendingSum(s.pending + NewEntries(setup, s, e)) + PaidSum(paid)
  {
    hide Next, Kept, Ripe, PendingSum, PaidSum, NewEntries, Matures, Capped;
    RewardStep(setup, s, e);
    var after, pending := Next(setup, s, e), s.pending + NewEntries(setup, s, e);
    if Matures(setup, s, e) {
      var ripe := Ripe(pending, after.tip.height, setup.depth);
      KeptAndRipeSplit(pending, after.tip.height, setup.depth);
      PaidSumAppend(paid, ripe, after.tip.height);
      CappedAdds(PaidSum(paid), PendingSum(ripe));
    } else {
      assert paid + [] == paid;
    }
  }

  /** On every run: what the neuron was credited is what is pending and what was paid, and the balance is what was paid,
      as a saturating counter shows it. */
  lemma {:induction false} RewardsConserved(setup: Setup, events: seq<Event>)
    ensures
      var s, paid := After(setup, events), Payments(setup, events);
      && PendingSum(s.pending) + PaidSum(paid) == ShareSum(CreditLog(setup, events), setup.neuron)
      && s.matured == Capped(PaidSum(paid))
  {
    hide Next, PendingSum, PaidSum, ShareSum, NewEntries, NewPayments, NewCredit;
    if events == [] {
      NothingYet();
    } else {
      var before, e := events[..|events| - 1], events[|events| - 1];
      RewardsConserved(setup, before);
      CreditStep(setup, After(setup, before), e, CreditLog(setup, before));
      PaymentStep(setup, After(setup, before), e, Payments(setup, before));
    }
  }

  lemma NothingYet()
    ensures PendingSum([]) == PaidSum([]) == 0 && forall neuron :: ShareSum([], neuron) == 0
  {
  }

  /** Every entry is pending or paid, once: nothing is paid twice, nothing is lost. */
  lemma {:induction false} EachEntryOnce(setup: Setup, events: seq<Event>)
    ensures multiset(After(setup, events).pending) + multiset(Paid(Payments(setup, events))) == multiset(Entries(setup, events))
  {
    hide Next, NewEntries, Kept, Ripe, Matures, Presented;
    if events == [] {
      assert Paid([]) == [];
    } else {
      var before, e := events[..|events| - 1], events[|events| - 1];
      EachEntryOnce(setup, before);
      var s, paid := After(setup, before), Payments(setup, before);
      RewardStep(setup, s, e);
      var after, added := Next(setup, s, e), NewEntries(setup, s, e);
      PaidSplit(s.pending + added, after.tip.height, setup.depth, paid);
      EntrySplit(s.pending, added, Paid(paid), Entries(setup, before));
      assert paid + [] == paid;
    }
  }

  lemma PaidSplit(pending: seq<Pending>, height: nat, depth: nat, paid: seq<Payment>)
    ensures multiset(Kept(pending, height, depth)) + multiset(Paid(paid + PaidAt(Ripe(pending, height, depth), height)))
         == multiset(pending) + multiset(Paid(paid))
  {
    hide Kept, Ripe;
    var ripe := Ripe(pending, height, depth);
    KeptAndRipeSplit(pending, height, depth);
    assert Paid(paid + PaidAt(ripe, height)) == Paid(paid) + ripe;
  }

  lemma EntrySplit(pending: seq<Pending>, added: seq<Pending>, paid: seq<Pending>, entries: seq<Pending>)
    requires multiset(pending) + multiset(paid) == multiset(entries)
    ensures multiset(pending + added) + multiset(paid) == multiset(entries + added)
  {
  }

  /** Every payment came at the mint height plus the depth, or later. */
  lemma {:induction false} PaidWhenDue(setup: Setup, events: seq<Event>)
    ensures forall p :: p in Payments(setup, events) ==> p.height >= SaturatingAdd(p.entry.mintHeight, setup.depth)
  {
    hide Next, NewEntries, Ripe, Matures;
    if events != [] {
      var before, e := events[..|events| - 1], events[|events| - 1];
      PaidWhenDue(setup, before);
      var s := After(setup, before);
      var pending, height := s.pending + NewEntries(setup, s, e), Next(setup, s, e).tip.height;
      var ripe := Ripe(pending, height, setup.depth);
      forall p | p in PaidAt(ripe, height)
        ensures p.height >= SaturatingAdd(p.entry.mintHeight, setup.depth)
      {
        KeptAndRipe(pending, height, setup.depth, p.entry);
      }
    }
  }

  /** The receipt an event of a run presents. */
  ghost function PresentedAt(setup: Setup, events: seq<Event>, i: nat): Option<Receipt>
    requires i < |events|
  {
    Presented(setup, After(setup, events[..i]), events[i])
  }

  /** A hash is credited exactly if an event presented a receipt with it. */
  lemma {:induction false} CreditedIff(setup: Setup, events: seq<Event>, h: Id)
    ensures h in After(setup, events).credited <==>
            exists i :: 0 <= i < |events| && PresentedAt(setup, events, i).Some? && PresentedAt(setup, events, i).value.receiptHash == h
  {
    hide Next, Presented, NewEntries, Matures;
    if events != [] {
      var n := |events| - 1;
      var before, e := events[..n], events[n];
      CreditedIff(setup, before, h);
      RewardStep(setup, After(setup, before), e);
      forall i | 0 <= i < n
        ensures PresentedAt(setup, events, i) == PresentedAt(setup, before, i)
      {
        assert before[..i] == events[..i];
      }
      assert PresentedAt(setup, events, n) == Presented(setup, After(setup, before), e);
    }
  }

  /** A receipt is credited exactly if some event presented it when none with its hash had been credited. */
  lemma {:induction false} LoggedIff(setup: Setup, events: seq<Event>, rec: Receipt)
    ensures rec in CreditLog(setup, events) <==>
            exists i :: 0 <= i < |events| && PresentedAt(setup, events, i) == Some(rec)
                        && rec.receiptHash !in After(setup, events[..i]).credited
  {
    hide Next, Presented, After;
    if events != [] {
      var n := |events| - 1;
      var before := events[..n];
      LoggedIff(setup, before, rec);
      forall i | 0 <= i < n
        ensures PresentedAt(setup, events, i) == PresentedAt(setup, before, i) && events[..i] == before[..i]
      {
        assert before[..i] == events[..i];
      }
      assert PresentedAt(setup, events, n) == Presented(setup, After(setup, before), events[n]);
    }
  }

  /** The receipts credited have different hashes: those that count as credited. */
  lemma {:induction false} CreditedOnce(setup: Setup, events: seq<Event>)
    ensures NoDup(Hashes(CreditLog(setup, events)))
    ensures forall h :: h in Hashes(CreditLog(setup, events)) <==> h in After(setup, events).credited
  {
    hide Next, Presented, NewEntries, Matures, NoDup;
    if events == [] {
      assert Hashes([]) == [] && NoDup<Id>([]) by { NoHashes(); }
    } else {
      var before, e := events[..|events| - 1], events[|events| - 1];
      CreditedOnce(setup, before);
      RewardStep(setup, After(setup, before), e);
      OneMoreCredit(CreditLog(setup, before), Presented(setup, After(setup, before), e), After(setup, before).credited);
    }
  }

  lemma NoHashes()
    ensures Hashes([]) == [] && NoDup<Id>([])
  {
  }

  lemma OneMoreCredit(log: seq<Receipt>, rec: Option<Receipt>, credited: set<Id>)
    requires NoDup(Hashes(log)) && forall h :: h in Hashes(log) <==> h in credited
    ensures
      var added := if rec.Some? && rec.value.receiptHash !in credited then [rec.value] else [];
      && NoDup(Hashes(log + added))
      && forall h :: h in Hashes(log + added) <==> h in credited || (rec.Some? && h == rec.value.receiptHash)
  {
    if rec.Some? && rec.value.receiptHash !in credited {
      assert Hashes(log + [rec.value]) == Hashes(log) + [rec.value.receiptHash];
      forall i | 0 <= i < |log|
        ensures Hashes(log)[i] != rec.value.receiptHash
      {
        assert Hashes(log)[i] in Hashes(log);
      }
    } else {
      assert log + [] == log;
    }
  }

  // ---------- claims over a run ----------

  lemma {:induction false} EpochsSound(setup: Setup, events: seq<Event>)
    ensures Sound(setup.fns, After(setup, events).epoch) && After(setup, events).epoch.outerT == OUTER_T
  {
    hide Next;
    if events != [] {
      var before := events[..|events| - 1];
      EpochsSound(setup, before);
      SoundStep(setup, After(setup, before), events[|events| - 1]);
    } else {
      assert ClaimIds([]) == [];
    }
  }

  /** Opening makes a sound epoch of a sound one, and changes neither the claims nor the delay. */
  lemma SoundReady(fns: Functions, e: EpochState, signalRoot: Id, empty: LiveError)
    requires Sound(fns, e)
    ensures Sound(fns, Readied(fns, e, signalRoot, empty).0)
    ensures Readied(fns, e, signalRoot, empty).0.outerT == e.outerT
  {
    hide Pays, BeaconHolds;
  }

  lemma SoundStep(setup: Setup, s: NodeState, e: Event)
    requires Sound(setup.fns, s.epoch) && s.epoch.outerT == OUTER_T
    ensures Sound(setup.fns, Next(setup, s, e).epoch) && Next(setup, s, e).epoch.outerT == OUTER_T
  {
    hide Pays, Kept, Ripe, PendingSum, Closed, Readied, Entry, BeaconHolds, CertHolds;
    match e {
      case Open(signalRoot) => { SoundReady(setup.fns, s.epoch, signalRoot, EpochFailed); }
      case Close(c) => { SoundClose(setup, s, c); }
      case _ => {}
    }
  }

  lemma SoundClose(setup: Setup, s: NodeState, c: Closing)
    requires Sound(setup.fns, s.epoch)
    ensures Sound(setup.fns, Closed(setup, s, c).0.epoch)
    ensures s.epoch.outerT == OUTER_T ==> Closed(setup, s, c).0.epoch.outerT == OUTER_T
  {
    hide Pays, Kept, Ripe, PendingSum, ReceiptOf, Readied, Total, Entry, BeaconHolds, CertHolds, ReceiptHolds, Workable;
    SoundReady(setup.fns, Funded(s), c.signalRoot, NoClaims);
    var ready := Readied(setup.fns, Funded(s), c.signalRoot, NoClaims).0;
    if Settles(setup.fns, ready, c.work) {
      ReceiptPays(setup.fns, ready, c.base, c.work);
      ReceiptRoot(setup.fns, ready, c.base, c.work);
    }
  }

  lemma ReceiptRoot(fns: Functions, e: EpochState, base: Id, work: SettleWork)
    requires Settles(fns, e, work)
    ensures ReceiptOf(fns, e, base, work).claimsRoot == e.beacon.value.claimsRoot
    ensures ReceiptOf(fns, e, base, work).epoch == e.epoch && ReceiptOf(fns, e, base, work).beacon == e.beacon.value.value
    ensures ReceiptOf(fns, e, base, work).directedTotal == fns.directed(base, e.claims)
  {
  }

  lemma ClaimStep(setup: Setup, s: NodeState, e: Event)
    ensures
      var after := Next(setup, s, e);
      && ClaimIds(after.epoch.claims) ==
         (if e.Close? && Closed(setup, s, e.closing).1.Ok? then [] else ClaimIds(s.epoch.claims) + NewClaim(setup, s, e))
      && s.signals.Keys <= after.signals.Keys
      && (forall id :: id in NewClaim(setup, s, e) ==> id !in s.signals && id in after.signals)
  {
    hide Kept, Ripe, PendingSum, ReceiptOf, Settles, BeaconHolds, ReceiptHolds, CertHolds, CertificateFor;
    assert ClaimIds(s.epoch.claims) + [] == ClaimIds(s.epoch.claims);
    if e.Ingest? {
      var claim := Claim(e.sig.id, e.sig.neuron, e.sig.content);
      assert ClaimIds(s.epoch.claims + [claim]) == ClaimIds(s.epoch.claims) + [claim.id];
    }
  }

  /** The ids claimed are those of the closed epochs and of the current one, in order, and none of them comes twice. */
  lemma {:induction false} ClaimedOnce(setup: Setup, events: seq<Event>)
    ensures ClaimLog(setup, events) == PastClaims(setup, events) + ClaimIds(After(setup, events).epoch.claims)
    ensures NoDup(ClaimLog(setup, events))
    ensures forall id :: id in ClaimLog(setup, events) ==> id in After(setup, events).signals
  {
    hide Next, NewClaim;
    if events == [] {
      assert ClaimIds([]) == [];
    } else {
      var before, e := events[..|events| - 1], events[|events| - 1];
      ClaimedOnce(setup, before);
      var s := After(setup, before);
      ClaimStep(setup, s, e);
      var log, added := ClaimLog(setup, before), NewClaim(setup, s, e);
      AtMostOneClaim(setup, s, e);
      OneMoreClaim(log, added, PastClaims(setup, before), ClaimIds(s.epoch.claims), s.signals.Keys);
      assert PastClaims(setup, before) + [] == PastClaims(setup, before);
    }
  }

  lemma OneMoreClaim(log: seq<Id>, added: seq<Id>, past: seq<Id>, current: seq<Id>, ingested: set<Id>)
    requires log == past + current && NoDup(log) && forall id :: id in log ==> id in ingested
    requires |added| <= 1 && forall id :: id in added ==> id !in ingested
    ensures log + added == past + (current + added) && NoDup(log + added)
    ensures added == [] ==> log + added == (past + current) + []
  {
    forall i, j | 0 <= i < j < |log + added|
      ensures (log + added)[i] != (log + added)[j]
    {
      if j == |log| {
        assert log[i] in log && added[0] in added;
      }
    }
  }

  lemma AtMostOneClaim(setup: Setup, s: NodeState, e: Event)
    ensures |NewClaim(setup, s, e)| <= 1 && (e.Close? ==> NewClaim(setup, s, e) == [])
  {
  }

  /** Claims that are frozen stay, with their root, until the epoch is closed with success. */
  lemma FrozenStays(setup: Setup, s: NodeState, e: Event)
    requires Sound(setup.fns, s.epoch) && s.epoch.phase != Propose
    requires !(e.Close? && Closed(setup, s, e.closing).1.Ok?)
    ensures Next(setup, s, e).epoch.claims == s.epoch.claims
    ensures Next(setup, s, e).epoch.claimsRoot == s.epoch.claimsRoot == Some(setup.fns.rootOf(ClaimIds(s.epoch.claims)))
    ensures Next(setup, s, e).epoch.phase != Propose
  {
    hide Kept, Ripe, PendingSum, ReceiptOf, Settles, Pays, BeaconHolds, ReceiptHolds, CertHolds, CertificateFor;
  }

  // ---------- a node's own artefacts ----------

  /** A beacon that was just computed holds exactly if there was a squaring or the challenge is below the modulus. */
  lemma OwnBeaconHoldsIff(fns: Functions, epoch: nat, prev: Id, claimsRoot: Id, signalRoot: Id, t: nat)
    ensures BeaconHolds(fns, BeaconOver(fns, epoch, prev, claimsRoot, signalRoot, t)) <==>
            t > 0 || fns.vdfInput(epoch, prev, claimsRoot, signalRoot) < Goldilocks.P
  {
    Vdf.OwnProofAcceptedIff(fns.vdfInput(epoch, prev, claimsRoot, signalRoot), t);
    hide Vdf.Accepts, Vdf.Output;
  }

  /** A receipt that was just made verifies. */
  lemma OwnReceiptHolds(fns: Functions, e: EpochState, base: Id, work: SettleWork)
    requires CountsSteps(fns.proofs) && Settles(fns, e, work)
    ensures ReceiptHolds(fns, ReceiptOf(fns, e, base, work))
  {
    var b := e.beacon.value;
    if TicketSeal(fns, b, work).Some? {
      ProvedHolds(fns.proofs, work.tickets, fns.statement(b.value, b.claimsRoot, |work.tickets|));
    }
    hide Total, SplitOf, Shares, Proved, SealHolds, CountsSteps, BeaconHolds;
  }

  /** A certificate that was just issued verifies, with the claims of the epoch or without. */
  lemma OwnCertHolds(fns: Functions, tip: Tip, e: EpochState, base: Id, work: SettleWork)
    requires CountsSteps(fns.proofs) && Sound(fns, e) && Settles(fns, e, work) && tip.trust != Untrusted
    ensures
      var cert := CertificateFor(fns, tip, e, ReceiptOf(fns, e, base, work));
      CertHolds(fns, cert, Some(Inputs(base, e.claims))) && CertHolds(fns, cert, None)
  {
    OwnReceiptHolds(fns, e, base, work);
    ReceiptRoot(fns, e, base, work);
    hide Total, Settles, ReceiptOf, CountsSteps, BeaconHolds, SealHolds, Pays;
  }

  /** A full or cell node's tip is trusted. */
  ghost predicate TipTrusted(setup: Setup, s: NodeState) {
    !setup.mode.Light? ==> s.tip.trust != Untrusted
  }

  lemma {:induction false} TipsTrusted(setup: Setup, events: seq<Event>)
    ensures TipTrusted(setup, After(setup, events))
  {
    hide Next;
    if events != [] {
      var before := events[..|events| - 1];
      TipsTrusted(setup, before);
      TipStep(setup, After(setup, before), events[|events| - 1]);
    }
  }

  lemma TipStep(setup: Setup, s: NodeState, e: Event)
    requires TipTrusted(setup, s)
    ensures TipTrusted(setup, Next(setup, s, e))
  {
    hide Kept, Ripe, PendingSum, ReceiptOf, Settles, Readied, ReceiptHolds, CertHolds, CertificateFor, Entry;
  }

  // ---------- when an epoch can be closed ----------

  /** The beacon that closing settles under. */
  function ClosingBeacon(fns: Functions, s: NodeState, c: Closing): Beacon {
    if s.epoch.beacon.Some? then s.epoch.beacon.value else NextBeacon(fns, Funded(s), c.signalRoot)
  }

  /** There are claims, the epoch is not yet settled, there is a budget, and the work has weight and is proved. */
  predicate Reaches(setup: Setup, s: NodeState, c: Closing) {
    && !setup.mode.Light? && s.epoch.phase != Settled && s.epoch.claims != [] && s.budget > 0
    && Workable(setup.fns, ClosingBeacon(setup.fns, s, c), c.work)
  }

  /** Under a delay of at least one squaring opening succeeds, unless there are no claims. */
  lemma ReadyOutcome(fns: Functions, e: EpochState, signalRoot: Id, empty: LiveError)
    requires Sound(fns, e) && e.outerT > 0
    ensures
      var (ready, r) := Readied(fns, e, signalRoot, empty);
      && Sound(fns, ready) && (r.Ok? <==> e.phase != Propose || e.claims != [])
      && (r.Err? ==> r == Err(empty) && ready == e)
      && (r.Ok? ==> ready.phase == (if e.phase == Settled then Settled else BeaconReady) && ready.beacon.Some?
                    && ready.beacon.value == (if e.beacon.Some? then e.beacon.value else NextBeacon(fns, e, signalRoot))
                    && BeaconHolds(fns, ready.beacon.value))
      && ready.claims == e.claims && ready.budget == e.budget && ready.epoch == e.epoch
  {
    OwnBeaconHoldsIff(fns, e.epoch, e.prevBeacon, fns.rootOf(ClaimIds(e.claims)), signalRoot, e.outerT);
    SoundReady(fns, e, signalRoot, empty);
    hide BeaconHolds, BeaconOver, Pays, ClaimIds;
  }

  /** Closing succeeds exactly if there are claims, a budget, and work that has weight and is proved; the node's own receipt
      and certificate always pass their checks. An epoch that fails to close stays open: nothing is credited, and without
      claims nothing changes, with claims they are frozen under an open beacon. */
  lemma CloseOutcome(setup: Setup, s: NodeState, c: Closing)
    requires Sound(setup.fns, s.epoch) && TipTrusted(setup, s) && CountsSteps(setup.fns.proofs) && s.epoch.phase != Settled
    ensures
      var (t, r) := Closed(setup, s, c);
      && (r.Ok? <==> Reaches(setup, s, c))
      && (r.Err? ==> t == s.(epoch := t.epoch) && t.epoch.claims == s.epoch.claims && t.epoch.epoch == s.epoch.epoch
                     && t.epoch.phase == (if setup.mode.Light? || s.epoch.claims == [] then s.epoch.phase else BeaconReady))
      && (r.Ok? ==> t.epoch == Fresh(SaturatingAdd(s.epoch.epoch, 1), r.value.beacon.value).(budget := s.budget)
                    && t.lastCert == Some(r.value) && r.value.settle == Presented(setup, s, Close(c)) && r.value.settle.Some?
                    && Pays(r.value.settle.value) && r.value.settle.value.budget == s.budget
                    && r.value.claimsRoot == setup.fns.rootOf(ClaimIds(s.epoch.claims))
                    && r.value.settle.value.receiptHash in t.credited
                    && CertHolds(setup.fns, r.value, None) && CertHolds(setup.fns, r.value, Some(Inputs(c.base, s.epoch.claims))))
  {
    hide Kept, Ripe, PendingSum, ReceiptOf, Pays, Total, Entry, BeaconHolds, ReceiptHolds, CertHolds, Workable, Readied, NextBeacon, CountsSteps;
    assert Sound(setup.fns, Funded(s));
    ReadyOutcome(setup.fns, Funded(s), c.signalRoot, NoClaims);
    var ready := Readied(setup.fns, Funded(s), c.signalRoot, NoClaims).0;
    if Settles(setup.fns, ready, c.work) {
      ReceiptPays(setup.fns, ready, c.base, c.work);
      ReceiptRoot(setup.fns, ready, c.base, c.work);
      if !setup.mode.Light? {
        OwnReceiptHolds(setup.fns, ready, c.base, c.work);
        OwnCertHolds(setup.fns, s.tip, ready, c.base, c.work);
      }
    }
  }

  /** On every run the epoch of a full or cell node is proposing or under an open beacon: it is never left settled, so what
      closes is always the next attempt with provable work. */
  lemma {:induction false} NeverStuck(setup: Setup, events: seq<Event>)
    requires CountsSteps(setup.fns.proofs)
    ensures After(setup, events).epoch.phase in {Propose, BeaconReady}
  {
    hide Next, CountsSteps;
    if events != [] {
      var before := events[..|events| - 1];
      NeverStuck(setup, before);
      EpochsSound(setup, before);
      TipsTrusted(setup, before);
      PhaseStep(setup, After(setup, before), events[|events| - 1]);
    }
  }

  lemma PhaseStep(setup: Setup, s: NodeState, e: Event)
    requires Sound(setup.fns, s.epoch) && TipTrusted(setup, s) && CountsSteps(setup.fns.proofs) && s.epoch.outerT == OUTER_T
    requires s.epoch.phase in {Propose, BeaconReady}
    ensures Next(setup, s, e).epoch.phase in {Propose, BeaconReady}
  {
    hide Kept, Ripe, PendingSum, Closed, Reaches, Readied, CertHolds, Sound, CountsSteps, Entry;
    match e {
      case Open(signalRoot) => {
        ReadyOutcome(setup.fns, s.epoch, signalRoot, EpochFailed);
        var ready := Readied(setup.fns, s.epoch, signalRoot, EpochFailed);
        assert ready.1.Ok? ==> ready.0.phase == BeaconReady;
        assert ready.1.Err? ==> ready.0 == s.epoch;
      }
      case Close(c) => { CloseOutcome(setup, s, c); }
      case _ => {}
    }
  }

  /** A certificate that a node issues is accepted by every node with the same functions, with the claims or without, and
      its receipt is then credited there. */
  lemma IssuedIsAccepted(setup: Setup, s: NodeState, c: Closing, other: Setup, t: NodeState, inputs: Option<Inputs>)
    requires Sound(setup.fns, s.epoch) && TipTrusted(setup, s) && CountsSteps(setup.fns.proofs) && s.epoch.phase != Settled
    requires Closed(setup, s, c).1.Ok? && other.fns == setup.fns
    requires inputs == None || inputs == Some(Inputs(c.base, s.epoch.claims))
    ensures
      var cert := Closed(setup, s, c).1.value;
      var (after, r) := Accepted(other, t, cert, inputs);
      r.Ok? && cert.settle.Some? && cert.settle.value.receiptHash in after.credited && after.lastCert == Some(cert)
  {
    CloseOutcome(setup, s, c);
    hide Closed, CertHolds, Kept, Ripe, PendingSum, Entry, Pays, Reaches, Sound, CountsSteps, Presented;
  }

  // ---------- for any proof system ----------

  /** Closing gets as far as a receipt, and then the node's own receipt or certificate fails its check. */
  ghost predicate FailsOwnCheck(setup: Setup, s: NodeState, c: Closing) {
    var (ready, r) := Readied(setup.fns, Funded(s), c.signalRoot, NoClaims);
    && !setup.mode.Light? && r.Ok? && Settles(setup.fns, ready, c.work)
    && (!ReceiptHolds(setup.fns, ReceiptOf(setup.fns, ready, c.base, c.work))
        || !CertHolds(setup.fns, CertificateFor(setup.fns, s.tip, ready, ReceiptOf(setup.fns, ready, c.base, c.work)),
                      Some(Inputs(c.base, ready.claims))))
  }

  /** Whatever the proof system: an epoch is stuck exactly if the node's own receipt or certificate failed its check, which
      with a proof system that counts its steps never happens. */
  lemma {:induction false} StuckIff(setup: Setup, events: seq<Event>)
    ensures After(setup, events).epoch.phase == Settled <==>
            exists i :: 0 <= i < |events| && events[i].Close? && FailsOwnCheck(setup, After(setup, events[..i]), events[i].closing)
  {
    hide Next, FailsOwnCheck;
    if events != [] {
      var n := |events| - 1;
      var before, e := events[..n], events[n];
      StuckIff(setup, before);
      SettledWhen(setup, After(setup, before), e);
      forall i | 0 <= i < n
        ensures before[..i] == events[..i] && before[i] == events[i]
      {
      }
    }
  }

  lemma SettledWhen(setup: Setup, s: NodeState, e: Event)
    ensures Next(setup, s, e).epoch.phase == Settled <==>
            s.epoch.phase == Settled || (e.Close? && FailsOwnCheck(setup, s, e.closing))
  {
    hide Kept, Ripe, PendingSum, ReceiptOf, Workable, BeaconHolds, ReceiptHolds, CertHolds, CertificateFor, Entry, NextBeacon;
  }

  /** A settled epoch stays: every later attempt to close it fails, whatever else happens. */
  lemma {:induction false} StuckForever(setup: Setup, s: NodeState, events: seq<Event>)
    requires s.epoch.phase == Settled
    ensures AfterFrom(setup, s, events).epoch.(budget := s.epoch.budget, outerT := s.epoch.outerT) == s.epoch
    ensures forall i :: 0 <= i < |events| && events[i].Close? ==>
      Closed(setup, AfterFrom(setup, s, events[..i]), events[i].closing).1 == Err(if setup.mode.Light? then WrongMode else SettleFailed)
  {
    hide Next, Closed;
    if events != [] {
      var n := |events| - 1;
      var before := events[..n];
      StuckForever(setup, s, before);
      SettledStep(setup, AfterFrom(setup, s, before), events[n]);
      forall i | 0 <= i < n
        ensures before[..i] == events[..i] && before[i] == events[i]
      {
      }
    }
  }

  lemma SettledStep(setup: Setup, s: NodeState, e: Event)
    requires s.epoch.phase == Settled
    ensures Next(setup, s, e).epoch.(budget := s.epoch.budget, outerT := s.epoch.outerT) == s.epoch
    ensures e.Close? ==> Closed(setup, s, e.closing).1 == Err(if setup.mode.Light? then WrongMode else SettleFailed)
  {
    hide Kept, Ripe, PendingSum, ReceiptOf, Workable, BeaconHolds, ReceiptHolds, CertHolds, CertificateFor, Entry, NextBeacon;
  }

  // ---------- one neuron alone ----------

  /** A claim, a close, and two more signals. */
  function SoloRun(neuron: Id, c: Closing): seq<Event> {
    [Ingest(Signal(1, neuron, 0), true), Close(c), Ingest(Signal(2, neuron, 0), true), Ingest(Signal(3, neuron, 0), true)]
  }

  /** The neuron alone in its epoch gets the whole budget, two heights later. */
  lemma SoloRunPays(setup: Setup, c: Closing)
    requires !setup.mode.Light? && setup.depth == 2 && CountsSteps(setup.fns.proofs)
    requires c.work.Found? && c.work.contributors == [Contributor(setup.neuron, 1)]
    requires forall b :: Workable(setup.fns, b, c.work)
    ensures
      var s := After(setup, SoloRun(setup.neuron, c));
      s.matured == 1000 && s.pending == [] && s.epoch.epoch == 2 && s.epoch.phase == Propose && s.lastCert.Some?
  {
    hide AfterFrom, Next, CountsSteps, Workable;
    var events := SoloRun(setup.neuron, c);
    Unrolled(setup, events);
    var s1 := Next(setup, Start(setup), events[0]);
    FirstSignal(setup, events[0].sig);
    SoloClose(setup, s1, c);
    var s2 := Next(setup, s1, events[1]);
    Waits(setup, s2, events[2].sig);
    Pays1000(setup, Next(setup, s2, events[2]), events[3].sig);
  }

  lemma Unrolled(setup: Setup, events: seq<Event>)
    requires |events| == 4
    ensures After(setup, events) ==
      Next(setup, Next(setup, Next(setup, Next(setup, Start(setup), events[0]), events[1]), events[2]), events[3])
  {
    hide Next;
    assert events[..3][..2] == events[..2] && events[..2][..1] == events[..1] && events[..1][..0] == [];
    assert AfterFrom(setup, Start(setup), events[..1]) == Next(setup, Start(setup), events[0]);
    assert AfterFrom(setup, Start(setup), events[..2]) == Next(setup, AfterFrom(setup, Start(setup), events[..1]), events[1]);
    assert AfterFrom(setup, Start(setup), events[..3]) == Next(setup, AfterFrom(setup, Start(setup), events[..2]), events[2]);
  }

  ghost predicate OneClaim(s: NodeState, sig: Signal) {
    && s.epoch == Fresh(1, 0).(claims := [Claim(sig.id, sig.neuron, sig.content)])
    && s.signals == map[sig.id := sig] && s.pending == [] && s.matured == 0 && s.credited == {}
    && s.tip.height == 1 && s.tip.trust == FoldDecided && s.budget == 1000
  }

  lemma FirstSignal(setup: Setup, sig: Signal)
    requires !setup.mode.Light?
    ensures OneClaim(Next(setup, Start(setup), Ingest(sig, true)), sig)
  {
    assert Kept([], 1, setup.depth) == [] && Ripe([], 1, setup.depth) == [] && PendingSum([]) == 0;
    var s := Start(setup);
    assert [] + [Claim(sig.id, sig.neuron, sig.content)] == [Claim(sig.id, sig.neuron, sig.content)];
  }

  /** A reward of 1000 minted at height 1 is pending in a second epoch that is still proposing. */
  ghost predicate Waiting(s: NodeState, height: nat, ids: set<Id>) {
    && |s.pending| == 1 && s.pending[0].amount == 1000 && s.pending[0].mintHeight == 1 && s.matured == 0
    && s.tip.height == height && s.signals.Keys == ids && s.epoch.epoch == 2 && s.epoch.phase == Propose && s.lastCert.Some?
  }

  lemma OneWeight()
    ensures Total([1]) == 1 && SplitOf([1], 1000) == [1000]
  {
    OneTotal(1);
    AllocatedTotal([1], 1000);
    hide Total, Allocates;
    var r := SplitOf([1], 1000);
    OneTotal(r[0]);
    assert r == [r[0]];
  }

  lemma OneTotal(x: nat)
    ensures Total([x]) == x
  {
    assert [x][..0] == [];
  }

  lemma OneEntry(p: Pending, height: nat, depth: nat)
    ensures Kept([p], height, depth) == if Due(p, height, depth) then [] else [p]
    ensures Ripe([p], height, depth) == if Due(p, height, depth) then [p] else []
    ensures PendingSum([p]) == p.amount && PendingSum([]) == 0
  {
    hide Due;
    assert [p][..0] == [];
  }

  lemma SoloClose(setup: Setup, s: NodeState, c: Closing)
    requires !setup.mode.Light? && setup.depth == 2 && CountsSteps(setup.fns.proofs)
    requires c.work.Found? && c.work.contributors == [Contributor(setup.neuron, 1)]
    requires forall b :: Workable(setup.fns, b, c.work)
    requires OneClaim(s, Signal(1, setup.neuron, 0))
    ensures Waiting(Next(setup, s, Close(c)), 1, {1})
  {
    hide CountsSteps, Workable, BeaconHolds, ReceiptHolds, CertHolds, NextBeacon, Kept, Ripe, PendingSum, Total, SplitOf, CertificateFor, Pays, SealHolds, Proved;
    assert WeightsOf(c.work.contributors) == [1];
    OneWeight();
    assert Sound(setup.fns, s.epoch);
    ReadyOutcome(setup.fns, Funded(s), c.signalRoot, NoClaims);
    var ready := Readied(setup.fns, Funded(s), c.signalRoot, NoClaims).0;
    assert Settles(setup.fns, ready, c.work);
    OwnReceiptHolds(setup.fns, ready, c.base, c.work);
    OwnCertHolds(setup.fns, s.tip, ready, c.base, c.work);
    var rec := ReceiptOf(setup.fns, ready, c.base, c.work);
    assert rec.shares == [Share(setup.neuron, 1000)];
    OneEntry(Pending(1000, rec.receiptHash, 1), 1, 2);
    assert [] + [Pending(1000, rec.receiptHash, 1)] == [Pending(1000, rec.receiptHash, 1)];
  }

  lemma Waits(setup: Setup, s: NodeState, sig: Signal)
    requires !setup.mode.Light? && setup.depth == 2 && Waiting(s, 1, {1}) && sig.id == 2
    ensures Waiting(Next(setup, s, Ingest(sig, true)), 2, {1, 2})
  {
    hide Kept, Ripe, PendingSum;
    assert s.pending == [s.pending[0]];
    OneEntry(s.pending[0], 2, 2);
  }

  lemma Pays1000(setup: Setup, s: NodeState, sig: Signal)
    requires !setup.mode.Light? && setup.depth == 2 && Waiting(s, 2, {1, 2}) && sig.id == 3
    ensures
      var t := Next(setup, s, Ingest(sig, true));
      t.matured == 1000 && t.pending == [] && t.epoch.epoch == 2 && t.epoch.phase == Propose && t.lastCert.Some?
  {
    hide Kept, Ripe, PendingSum;
    assert s.pending == [s.pending[0]];
    OneEntry(s.pending[0], 3, 2);
  }
}
