/** The epoch runner (src/epoch.rs:47-276) and the live node around it (src/live.rs:54-440): every operation makes of its
    state exactly what LiveStates says. */
module Live {
  import opened Allocation
  import opened Words
  import opened LiveStates
  import opened LiveRuns
  import opened Seals
  import Vdf
  import opened Sequences

  // ---------- checks ----------

  method OpenBeaconOver(fns: Functions, epoch: nat, prev: Id, claimsRoot: Id, signalRoot: Id, t: nat) returns (b: Beacon)
    ensures b == BeaconOver(fns, epoch, prev, claimsRoot, signalRoot, t)
  {
    var outer := Vdf.Evaluate(fns.vdfInput(epoch, prev, claimsRoot, signalRoot), t);
    b := Beacon(epoch, prev, claimsRoot, signalRoot, outer, fns.beaconDigest(epoch, prev, claimsRoot, signalRoot, outer.output));
  }

  method VerifyBeacon(fns: Functions, b: Beacon) returns (ok: bool)
    ensures ok <==> BeaconHolds(fns, b)
  {
    var accepted := Vdf.Verify(b.outer);
    if !accepted {
      return false;
    }
    if b.outer.input != fns.vdfInput(b.epoch, b.prev, b.claimsRoot, b.signalRoot) {
      return false;
    }
    return fns.beaconDigest(b.epoch, b.prev, b.claimsRoot, b.signalRoot, b.outer.output) == b.value;
  }

  method VerifyReceipt(fns: Functions, rec: Receipt) returns (ok: bool)
    ensures ok <==> ReceiptHolds(fns, rec)
  {
    if rec.receiptHash != ReceiptHash(fns, rec.epoch, rec.beacon, rec.shares) {
      return false;
    }
    if rec.artifact.Some? {
      var holds := VerifyBeacon(fns, rec.artifact.value);
      if !holds || rec.artifact.value.value != rec.beacon {
        return false;
      }
    }
    if rec.ticketSeal.Some? {
      var holds := VerifyFoldSeal(fns.proofs, rec.ticketSeal.value);
      if !holds {
        return false;
      }
    }
    if rec.foldSeal.Some? {
      var holds := VerifyFoldSeal(fns.proofs, rec.foldSeal.value);
      if !holds {
        return false;
      }
    }
    return true;
  }

  method VerifyEpochCert(fns: Functions, cert: Certificate, inputs: Option<Inputs>) returns (ok: bool)
    ensures ok <==> CertHolds(fns, cert, inputs)
  {
    hide BeaconHolds, ReceiptHolds, CertHash, SealHolds;
    if cert.certHash != CertHash(fns, cert) {
      return false;
    }
    if cert.tip.trust == Untrusted {
      return false;
    }
    var beaconOk := VerifyBeacon(fns, cert.beacon);
    if !beaconOk {
      return false;
    }
    if cert.beacon.claimsRoot != cert.claimsRoot || cert.beacon.epoch != cert.epoch {
      return false;
    }
    if cert.settle.Some? {
      var rec := cert.settle.value;
      var recOk := VerifyReceipt(fns, rec);
      if !recOk {
        return false;
      }
      if rec.epoch != cert.epoch || rec.beacon != cert.beacon.value {
        return false;
      }
      if rec.claimsRoot != cert.claimsRoot {
        return false;
      }
      if cert.ticketSeal.Some? {
        var sealOk := VerifyFoldSeal(fns.proofs, cert.ticketSeal.value);
        if !sealOk {
          return false;
        }
      }
      if inputs.Some? {
        if inputs.value.claims == [] {
          return false;
        }
        if fns.directed(inputs.value.base, inputs.value.claims) != rec.directedTotal {
          return false;
        }
      }
    }
    return true;
  }

  method IssueEpochCert(fns: Functions, epoch: nat, tip: Tip, beacon: Beacon, claimsRoot: Id, settle: Option<Receipt>,
                        ticketSeal: Option<Seal>) returns (cert: Certificate)
    ensures cert == Certificate(epoch, tip, claimsRoot, beacon, None, settle, ticketSeal,
                                CertHash(fns, Certificate(epoch, tip, claimsRoot, beacon, None, settle, ticketSeal, 0)))
  {
    cert := Certificate(epoch, tip, claimsRoot, beacon, None, settle, ticketSeal, 0);
    cert := cert.(certHash := CertHash(fns, cert));
  }

  // ---------- the epoch runner ----------

  class EpochRunner {
    const fns: Functions
    const epoch: nat
    const prevBeacon: Id
    var phase: EpochPhase
    var claims: seq<Claim>
    var claimsRoot: Option<Id>
    var beacon: Option<Beacon>
    var receipt: Option<Receipt>
    var outerT: nat
    var budget: Amount

    function State(): EpochState
      reads this
    {
      EpochState(epoch, prevBeacon, phase, claims, claimsRoot, beacon, receipt, outerT, budget)
    }

    ghost predicate Valid()
      reads this
    {
      Sound(fns, State())
    }

    constructor (epoch: nat, prevBeacon: Id, fns: Functions)
      ensures Valid() && State() == Fresh(epoch, prevBeacon) && this.fns == fns
    {
      this.epoch, this.prevBeacon, this.fns, outerT := epoch, prevBeacon, fns, OUTER_T;
      phase, claims, claimsRoot, beacon, receipt, budget := EpochPhase.Propose, [], None, None, None, 1000;
    }

    method ProposeClaim(claim: Claim) returns (r: EpochResult<()>)
      requires Valid()
      modifies this`claims
      ensures Valid()
      ensures r == if old(phase) == Propose then Done(()) else Refused(WrongPhase)
      ensures State() == if r.Done? then old(State()).(claims := old(claims) + [claim]) else old(State())
    {
      if phase != Propose {
        return Refused(WrongPhase);
      }
      claims := claims + [claim];
      return Done(());
    }

    method Freeze() returns (r: EpochResult<Id>)
      requires Valid()
      modifies this`phase, this`claimsRoot
      ensures Valid()
      ensures r == if old(phase) != Propose then Refused(WrongPhase)
                   else if claims == [] then Refused(EmptyClaims)
                   else Done(fns.rootOf(ClaimIds(claims)))
      ensures State() == if r.Done? then Froze(fns, old(State())) else old(State())
    {
      if phase != Propose {
        return Refused(WrongPhase);
      }
      if claims == [] {
        return Refused(EmptyClaims);
      }
      var ids := ClaimIds(claims);
      var cr := fns.rootOf(ids);
      claimsRoot := Some(cr);
      phase := Frozen;
      return Done(cr);
    }

    /** `signalRoot`: the root over the signals' delay outputs. */
    method OpenBeacon(signalRoot: Id) returns (r: EpochResult<Beacon>)
      requires Valid()
      modifies this`phase, this`beacon
      ensures Valid()
      ensures r == if old(phase) != Frozen then Refused(WrongPhase)
                   else if !BeaconHolds(fns, NextBeacon(fns, old(State()), signalRoot)) then Refused(BeaconInvalid)
                   else Done(NextBeacon(fns, old(State()), signalRoot))
      ensures State() == if r.Done? then Opened(fns, old(State()), signalRoot) else old(State())
    {
      hide BeaconHolds, BeaconOver, Pays;
      if phase != Frozen {
        return Refused(WrongPhase);
      }
      if claimsRoot.None? {
        return Refused(NotFrozen);
      }
      var art := OpenBeaconOver(fns, epoch, prevBeacon, claimsRoot.value, signalRoot, outerT);
      assert art == NextBeacon(fns, State(), signalRoot);
      var holds := VerifyBeacon(fns, art);
      if !holds {
        return Refused(BeaconInvalid);
      }
      BeaconBinds(fns, State(), signalRoot);
      beacon := Some(art);
      phase := BeaconReady;
      return Done(art);
    }

    /** The receipt of the work, if it is provable and has weight. */
    method MakeReceipt(art: Beacon, base: Id, work: SettleWork) returns (r: EpochResult<Receipt>)
      requires Valid() && phase == BeaconReady && beacon == Some(art) && budget > 0
      ensures r.Done? <==> Settles(fns, State(), work)
      ensures r.Done? ==> r.value == ReceiptOf(fns, State(), base, work)
    {
      hide Total, Proved, SealHolds, BeaconHolds, Pays;
      if work.NoSettlement? {
        return Refused(SettleRefused);
      }
      var ticketSeal: Option<Seal> := None;
      if work.tickets != [] {
        ticketSeal := ProveBatch(fns.proofs, work.tickets, fns.statement(art.value, art.claimsRoot, |work.tickets|));
        if ticketSeal.None? {
          return Refused(NoProof);
        }
      }
      var foldSeal := ProveBatch(fns.proofs, work.merges, fns.statement(art.value, art.claimsRoot, work.samples));
      if foldSeal.None? {
        return Refused(NoProof);
      }
      var sealOk := VerifyFoldSeal(fns.proofs, foldSeal.value);
      if !sealOk {
        return Refused(NoProof);
      }
      var weights := WeightsOf(work.contributors);
      var split := AllocateBudget(weights, budget);
      if split.NoPositiveShare? {
        return Refused(NoShares);
      }
      AllocationUnique(weights, budget, split.amounts, SplitOf(weights, budget));
      var shares := Shares(work.contributors, split.amounts);
      return Done(Receipt(epoch, art.value, art.claimsRoot, ReceiptHash(fns, epoch, art.value, shares), fns.directed(base, claims),
                          budget, shares, Some(art), ticketSeal, foldSeal, work.samples));
    }

    method SettleWithPeers(base: Id, work: SettleWork) returns (r: EpochResult<Receipt>)
      requires Valid()
      modifies this`phase, this`receipt
      ensures Valid()
      ensures r.Done? <==> Settles(fns, old(State()), work)
      ensures r.Done? ==> r.value == ReceiptOf(fns, old(State()), base, work) && Pays(r.value)
      ensures State() == if r.Done? then WithReceipt(old(State()), r.value) else old(State())
    {
      hide Total, Proved, SealHolds, BeaconHolds, Workable, ReceiptOf, Pays;
      if phase != BeaconReady {
        return Refused(WrongPhase);
      }
      if budget == 0 {
        return Refused(BudgetZero);
      }
      if beacon.None? {
        return Refused(NoBeacon);
      }
      var holds := VerifyBeacon(fns, beacon.value);
      if !holds {
        return Refused(BeaconInvalid);
      }
      r := MakeReceipt(beacon.value, base, work);
      if r.Refused? {
        return r;
      }
      ReceiptPays(fns, State(), base, work);
      ReceiptRoot(fns, State(), base, work);
      receipt := Some(r.value);
      phase := Settled;
    }

    method NextEpoch() returns (r: EpochResult<EpochRunner>)
      requires Valid()
      ensures r.Done? <==> phase == Settled
      ensures r.Done? ==> fresh(r.value) && r.value.Valid() && r.value.fns == fns
      ensures r.Done? ==> r.value.State() == Fresh(SaturatingAdd(epoch, 1), beacon.value.value)
    {
      if beacon.None? {
        return Refused(NoBeacon);
      }
      if phase != Settled {
        return Refused(WrongPhase);
      }
      var next := new EpochRunner(SaturatingAdd(epoch, 1), beacon.value.value, fns);
      return Done(next);
    }
  }

  // ---------- the node ----------

  class LiveNode {
    const setup: Setup
    var tip: Tip
    var signals: map<Id, Signal>
    var epoch: EpochRunner
    var lastCert: Option<Certificate>
    var budget: Amount
    var pendingRewards: seq<Pending>
    var creditedReceipts: set<Id>
    var maturedReward: nat

    function State(): NodeState
      reads this, epoch
    {
      NodeState(tip, signals, epoch.State(), lastCert, budget, pendingRewards, creditedReceipts, maturedReward)
    }

    ghost predicate Valid()
      reads this, epoch
    {
      epoch.Valid() && epoch.fns == setup.fns && epoch.outerT == OUTER_T && maturedReward <= U64_MAX
    }

    /** `sealed`: whether the first tip of a full or cell node can be sealed. */
    constructor (mode: NodeMode, neuron: Id, sealed: bool, fns: Functions)
      ensures Valid() && fresh(epoch) && setup == Setup(mode, neuron, 2, sealed, fns) && State() == Start(setup)
    {
      setup := Setup(mode, neuron, 2, sealed, fns);
      tip := Tip(0, 0, if mode.Light? then Untrusted else if sealed then FoldDecided else LocalApplied);
      budget, signals, lastCert := 1000, map[], None;
      pendingRewards, creditedReceipts, maturedReward := [], {}, 0;
      epoch := new EpochRunner(1, 0, fns);
    }

    /** Moves what is due at the tip's height from pending to the balance. */
    method MatureRewards()
      requires Valid()
      modifies this`pendingRewards, this`maturedReward
      ensures Valid() && State() == Matured(setup, old(State()))
    {
      hide Due, PendingSum, Kept, Ripe;
      var h, depth := tip.height, setup.depth;
      var keep: seq<Pending>, drained, i := [], pendingRewards, 0;
      assert drained[..0] == [];
      NothingMatured(h, depth);
      while i < |drained|
        invariant 0 <= i <= |drained|
        invariant keep == Kept(drained[..i], h, depth)
        invariant maturedReward == Capped(old(maturedReward) + PendingSum(Ripe(drained[..i], h, depth)))
      {
        var p := drained[i];
        MatureStep(drained, i, h, depth);
        DueIs(p, h, depth);
        if h >= SaturatingAdd(p.mintHeight, depth) {
          maturedReward := SaturatingAdd(maturedReward, p.amount);
        } else {
          keep := keep + [p];
        }
        i := i + 1;
      }
      assert drained[..i] == drained;
      pendingRewards := keep;
    }

    /** A receipt counts once, by its hash; the share is pending from the mint height on. */
    method CreditReceipt(rec: Receipt, mintHeight: nat)
      requires Valid()
      modifies this`pendingRewards, this`creditedReceipts
      ensures Valid() && State() == Credited(setup, old(State()), rec, mintHeight)
    {
      if rec.receiptHash in creditedReceipts {
        return;
      }
      creditedReceipts := creditedReceipts + {rec.receiptHash};
      var amt := ShareOf(rec.shares, setup.neuron);
      if amt > 0 {
        pendingRewards := pendingRewards + [Pending(amt, rec.receiptHash, mintHeight)];
      }
    }

    /** `folds`: whether the tip prover folds and seals the new height; a light node has none. */
    method BumpTip(folds: bool) returns (r: LiveResult<()>)
      requires Valid()
      modifies this`tip, this`pendingRewards, this`maturedReward
      ensures Valid() && (State(), r) == Bumped(setup, old(State()), folds)
    {
      var height := SaturatingAdd(tip.height, 1);
      var root := setup.fns.tipRoot(height, |signals|);
      if !setup.mode.Light? {
        if !folds {
          return Err(TipAdvanceFailed);
        }
        tip := Tip(height, root, FoldDecided);
      } else {
        tip := Tip(height, root, LocalApplied);
      }
      MatureRewards();
      return Ok(());
    }

    method IngestSignal(sig: Signal, folds: bool) returns (r: LiveResult<()>)
      requires Valid()
      modifies this, epoch
      ensures Valid() && epoch == old(epoch)
      ensures (State(), r) == Ingested(setup, old(State()), sig, folds)
    {
      if setup.mode.Light? {
        return Err(WrongMode);
      }
      if sig.id in signals {
        return Ok(());
      }
      if epoch.phase == Propose {
        var claim := Claim(sig.id, sig.neuron, sig.content);
        var proposed := epoch.ProposeClaim(claim);
        if proposed.Refused? {
          return Err(EpochFailed);
        }
      }
      signals := signals[sig.id := sig];
      r := BumpTip(folds);
    }

    /** Freezes the claims and opens the beacon, as far as the phase requires. */
    method FreezeAndOpen(signalRoot: Id, empty: LiveError) returns (r: LiveResult<()>)
      requires epoch.Valid()
      modifies epoch`phase, epoch`claimsRoot, epoch`beacon
      ensures epoch.Valid() && (epoch.State(), r) == Readied(epoch.fns, old(epoch.State()), signalRoot, empty)
    {
      hide BeaconHolds, NextBeacon, Pays;
      if epoch.phase == Propose {
        if epoch.claims == [] {
          return Err(empty);
        }
        var frozen := epoch.Freeze();
        if frozen.Refused? {
          return Err(EpochFailed);
        }
      }
      if epoch.phase == Frozen {
        var beaconOpen := epoch.OpenBeacon(signalRoot);
        if beaconOpen.Refused? {
          return Err(EpochFailed);
        }
      }
      return Ok(());
    }

    /** Freezes and opens the beacon without settling. */
    method FreezeAndBeacon(signalRoot: Id) returns (r: LiveResult<Id>)
      requires Valid()
      modifies epoch
      ensures Valid() && (State(), r) == BeaconOpened(setup, old(State()), signalRoot)
    {
      hide BeaconHolds, NextBeacon, Pays, Readied, Sound;
      if setup.mode.Light? {
        return Err(WrongMode);
      }
      var ready := FreezeAndOpen(signalRoot, EpochFailed);
      if ready.Err? {
        return Err(ready.error);
      }
      return Ok(if epoch.claimsRoot.Some? then epoch.claimsRoot.value else 0);
    }

    /** Freeze, beacon, settle, credit, certify, next epoch. */
    method CloseAndSettleEpoch(closing: Closing) returns (r: LiveResult<Certificate>)
      requires Valid()
      modifies this, epoch
      ensures Valid() && (epoch == old(epoch) || fresh(epoch))
      ensures (State(), r) == Closed(setup, old(State()), closing)
    {
      hide Settles, Kept, Ripe, PendingSum, ShareOf, Pays, ClaimIds, Readied, ReceiptOf, Entry, Total, BeaconHolds, ReceiptHolds,
        CertHolds, CertHash;
      if setup.mode.Light? {
        return Err(WrongMode);
      }
      epoch.budget, epoch.outerT := budget, OUTER_T;
      var ready := FreezeAndOpen(closing.signalRoot, NoClaims);
      if ready.Err? {
        return Err(ready.error);
      }
      var settled := epoch.SettleWithPeers(closing.base, closing.work);
      if settled.Refused? {
        return Err(SettleFailed);
      }
      var rec := settled.value;
      var receiptOk := VerifyReceipt(setup.fns, rec);
      if !receiptOk {
        return Err(SettleFailed);
      }
      CreditReceipt(rec, tip.height);
      r := Certify(closing.base, rec);
    }

    /** Issues the certificate, checks it, and moves on to the next epoch. */
    method Certify(base: Id, rec: Receipt) returns (r: LiveResult<Certificate>)
      requires Valid() && epoch.phase == Settled && epoch.beacon.Some?
      modifies this, epoch
      ensures Valid() && (epoch == old(epoch) || fresh(epoch))
      ensures
        var cert := CertificateFor(setup.fns, old(tip), old(epoch.State()), rec);
        if CertHolds(setup.fns, cert, Some(Inputs(base, old(epoch.claims))))
        then r == Ok(cert) && State() == Certified(setup, old(State()), cert)
        else r == Err(CertInvalid) && State() == old(State())
    {
      hide Kept, Ripe, PendingSum, Pays, ClaimIds, BeaconHolds, CertHolds, CertHash;
      if epoch.beacon.None? {
        return Err(EpochFailed);
      }
      var cert := IssueEpochCert(setup.fns, epoch.epoch, tip, epoch.beacon.value, rec.claimsRoot, Some(rec), rec.ticketSeal);
      var certOk := VerifyEpochCert(setup.fns, cert, Some(Inputs(base, epoch.claims)));
      if !certOk {
        return Err(CertInvalid);
      }
      lastCert := Some(cert);
      var next := epoch.NextEpoch();
      if next.Done? {
        epoch := next.value;
        epoch.budget := budget;
      }
      MatureRewards();
      return Ok(cert);
    }

    /** `inputs`: the base graph and the claims, if the caller has the claims. */
    method AcceptEpochCert(cert: Certificate, inputs: Option<Inputs>) returns (r: LiveResult<()>)
      requires Valid()
      modifies this
      ensures Valid() && epoch == old(epoch)
      ensures (State(), r) == Accepted(setup, old(State()), cert, inputs)
    {
      hide CertHolds;
      var ok := VerifyEpochCert(setup.fns, cert, inputs);
      if !ok {
        return Err(CertInvalid);
      }
      if setup.mode.Light? {
        if cert.tip.trust == FoldDecided || cert.tip.height >= tip.height {
          tip := Tip(cert.tip.height, cert.tip.root, LocalApplied);
        }
      }
      if cert.settle.Some? {
        CreditReceipt(cert.settle.value, cert.tip.height);
      }
      lastCert := Some(cert);
      MatureRewards();
      return Ok(());
    }

    method LightJoin(joined: Tip) returns (r: LiveResult<()>)
      requires Valid()
      modifies this`tip
      ensures Valid() && (State(), r) == Joined(setup, old(State()), joined)
    {
      if !setup.mode.Light? {
        return Err(WrongMode);
      }
      if joined.trust == Untrusted {
        return Err(TipUntrusted);
      }
      tip := joined;
      return Ok(());
    }

    /** `folds`: whether the tip takes the new block. */
    method LightAdvance(height: nat, root: Id, folds: bool) returns (r: LiveResult<()>)
      requires Valid()
      modifies this`tip
      ensures Valid() && (State(), r) == Advanced(setup, old(State()), height, root, folds)
    {
      if !setup.mode.Light? {
        return Err(WrongMode);
      }
      if tip.trust != FoldDecided || height < tip.height || !folds {
        return Err(TipAdvanceFailed);
      }
      tip := tip.(height := height, root := root);
      return Ok(());
    }
  }

  lemma BeaconBinds(fns: Functions, e: EpochState, signalRoot: Id)
    requires Sound(fns, e) && e.phase == Frozen && BeaconHolds(fns, NextBeacon(fns, e, signalRoot))
    ensures Sound(fns, Opened(fns, e, signalRoot))
  {
    hide BeaconHolds, Pays;
  }

  lemma DueIs(p: Pending, h: nat, depth: nat)
    ensures Due(p, h, depth) <==> h >= SaturatingAdd(p.mintHeight, depth)
  {
  }

  method Take(node: LiveNode, e: Event)
    requires node.Valid()
    modifies node, node.epoch
    ensures node.Valid() && (node.epoch == old(node.epoch) || fresh(node.epoch))
    ensures node.State() == Next(node.setup, old(node.State()), e)
  {
    hide Ingested, BeaconOpened, Closed, Accepted, Joined, Advanced, Sound;
    match e {
      case Ingest(sig, folds) => var _ := node.IngestSignal(sig, folds);
      case Open(signalRoot) => var _ := node.FreezeAndBeacon(signalRoot);
      case Close(closing) => var _ := node.CloseAndSettleEpoch(closing);
      case Accept(cert, inputs) => var _ := node.AcceptEpochCert(cert, inputs);
      case Join(tip) => var _ := node.LightJoin(tip);
      case Advance(height, root, folds) => var _ := node.LightAdvance(height, root, folds);
      case Fund(amount) => node.budget := amount;
    }
  }

  /** A node that goes through a list of events ends in the state they make. What it was credited, by the distinct
      receipts they presented, is pending or paid; what was paid was due; no id was claimed twice; frozen claims have
      their root; and no epoch is stuck. */
  method Run(mode: NodeMode, neuron: Id, sealed: bool, fns: Functions, events: seq<Event>)
    returns (node: LiveNode)
    ensures fresh(node) && node.Valid() && node.setup == Setup(mode, neuron, 2, sealed, fns)
    ensures node.State() == After(node.setup, events)
    ensures PaidSum(Payments(node.setup, events)) <= U64_MAX ==>
      node.maturedReward + PendingSum(node.pendingRewards) == ShareSum(CreditLog(node.setup, events), neuron)
    ensures forall p :: p in Payments(node.setup, events) ==> p.height >= SaturatingAdd(p.entry.mintHeight, 2)
    ensures forall h :: h in node.creditedReceipts <==> h in Hashes(CreditLog(node.setup, events))
    ensures NoDup(Hashes(CreditLog(node.setup, events)))
    ensures ClaimLog(node.setup, events) == PastClaims(node.setup, events) + ClaimIds(node.epoch.claims)
    ensures NoDup(ClaimLog(node.setup, events))
    ensures node.epoch.phase != Propose ==> node.epoch.claimsRoot == Some(fns.rootOf(ClaimIds(node.epoch.claims)))
    ensures CountsSteps(fns.proofs) ==> node.epoch.phase in {Propose, BeaconReady}
  {
    hide Next, NewCredit, NewPayments, NewClaim, PaidSum, PendingSum, ShareSum;
    node := new LiveNode(mode, neuron, sealed, fns);
    var i := 0;
    assert events[..0] == [];
    while i < |events|
      invariant 0 <= i <= |events| && fresh(node) && fresh(node.epoch) && node.Valid()
      invariant node.setup == Setup(mode, neuron, 2, sealed, fns)
      invariant node.State() == After(node.setup, events[..i])
    {
      assert events[..i + 1][..i] == events[..i];
      Take(node, events[i]);
      i := i + 1;
    }
    assert events[..i] == events;
    RewardsConserved(node.setup, events);
    PaidWhenDue(node.setup, events);
    CreditedOnce(node.setup, events);
    ClaimedOnce(node.setup, events);
    if CountsSteps(fns.proofs) {
      NeverStuck(node.setup, events);
    }
  }
}
