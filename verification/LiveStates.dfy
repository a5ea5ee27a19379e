/** The states of a live node and of its epoch runner (src/live.rs:54-440, src/epoch.rs:47-276), and what each operation
    makes of them. Hashes, the impulse of a set of links and the folding proof system are functions; what a signal is worth,
    what a grind finds and whether a fold succeeds are inputs of each operation. What the node checks it checks here too:
    beacons (src/beacon.rs:86-140), receipts (src/rewards.rs:548-567) and certificates (src/epoch_cert.rs:86-185). */
module LiveStates {
  import opened Allocation
  import opened Words
  import opened Seals
  import opened Sorting
  import Vdf

  /** A batch of materials to be folded; no list is longer than a machine word counts. */
  type Materials = s: seq<Id> | |s| <= U64_MAX

  /** `content`: the links of the claim and what is believed of them, as one value. */
  datatype Claim = Claim(id: Id, neuron: Id, content: Id)

  datatype Signal = Signal(id: Id, neuron: Id, content: Id)

  datatype Share = Share(neuron: Id, amount: nat)

  datatype Beacon = Beacon(epoch: nat, prev: Id, claimsRoot: Id, signalRoot: Id, outer: Vdf.VdfProof, value: Id)

  datatype Receipt = Receipt(
    epoch: nat, beacon: Id, claimsRoot: Id, receiptHash: Id, directedTotal: Id, budget: nat, shares: seq<Share>,
    artifact: Option<Beacon>, ticketSeal: Option<Seal>, foldSeal: Option<Seal>, samples: nat)

  datatype TipTrust = Untrusted | LocalApplied | FoldDecided

  datatype Tip = Tip(height: nat, root: Id, trust: TipTrust)

  datatype Certificate = Certificate(
    epoch: nat, tip: Tip, claimsRoot: Id, beacon: Beacon, phi: Option<Id>, settle: Option<Receipt>, ticketSeal: Option<Seal>,
    certHash: Id)

  /** What the hash of a certificate covers. */
  datatype CertBody = CertBody(
    epoch: nat, tip: Tip, claimsRoot: Id, beacon: Id, receiptHash: Option<Id>, phi: Option<Id>, steps: Option<(nat, nat)>)

  /** What a certificate's settlement is checked against: the base graph and the claims. */
  datatype Inputs = Inputs(base: Id, claims: seq<Claim>)

  datatype EpochPhase = Propose | Frozen | BeaconReady | Settled

  datatype EpochError =
    WrongPhase | EmptyClaims | NotFrozen | NoBeacon | BeaconInvalid | BudgetZero | SettleRefused | NoProof | NoShares

  datatype LiveError =
    WrongMode | TipUntrusted | TipAdvanceFailed | EpochFailed | NoClaims | SettleFailed | CertInvalid

  datatype EpochResult<+T> = Done(value: T) | Refused(error: EpochError)
  datatype LiveResult<+T> = Ok(value: T) | Err(error: LiveError)

  datatype NodeMode = Full | Cell | Light

  /** A reward that is not yet spendable: its amount, the receipt it comes from and its mint height. */
  datatype Pending = Pending(amount: nat, reason: Id, mintHeight: nat)

  datatype Contributor = Contributor(neuron: Id, weight: nat)

  /** What grinding, folding and clipping come to: a refusal, or contributors with the weights of their shares, the
      materials of the tickets and of the merges, and the number of samples. */
  datatype SettleWork =
    | NoSettlement
    | Found(contributors: seq<Contributor>, tickets: Materials, merges: Materials, samples: nat)

  /** What closing an epoch meets outside the node: the base graph, the root over the signals' delay outputs, the work. */
  datatype Closing = Closing(base: Id, signalRoot: Id, work: SettleWork)

  datatype Functions = Functions(
    rootOf: seq<Id> -> Id, vdfInput: (nat, Id, Id, Id) -> nat, beaconDigest: (nat, Id, Id, Id, nat) -> Id,
    statement: (Id, Id, nat) -> Id, directed: (Id, seq<Claim>) -> Id, receiptHash: (nat, Id, seq<Share>) -> Id,
    certHash: CertBody -> Id, tipRoot: (nat, nat) -> Id, proofs: ProofSystem)

  /** What a node is set up with; `sealed`: whether its first tip could be sealed. */
  datatype Setup = Setup(mode: NodeMode, neuron: Id, depth: nat, sealed: bool, fns: Functions)

  datatype EpochState = EpochState(
    epoch: nat, prevBeacon: Id, phase: EpochPhase, claims: seq<Claim>, claimsRoot: Option<Id>, beacon: Option<Beacon>,
    receipt: Option<Receipt>, outerT: nat, budget: Amount)

  datatype NodeState = NodeState(
    tip: Tip, signals: map<Id, Signal>, epoch: EpochState, lastCert: Option<Certificate>, budget: Amount,
    pending: seq<Pending>, credited: set<Id>, matured: nat)

  const OUTER_T: nat := 32

  function ClaimIds(claims: seq<Claim>): (r: seq<Id>)
    ensures |r| == |claims| && forall i :: 0 <= i < |r| ==> r[i] == claims[i].id
  {
    seq(|claims|, i requires 0 <= i < |claims| => claims[i].id)
  }

  function WeightsOf(contributors: seq<Contributor>): (r: seq<nat>)
    ensures |r| == |contributors| && forall i :: 0 <= i < |r| ==> r[i] == contributors[i].weight
  {
    seq(|contributors|, i requires 0 <= i < |contributors| => contributors[i].weight)
  }

  function Shares(contributors: seq<Contributor>, amounts: seq<nat>): (r: seq<Share>)
    requires |contributors| == |amounts|
    ensures |r| == |amounts| && forall i :: 0 <= i < |r| ==> r[i] == Share(contributors[i].neuron, amounts[i])
  {
    seq(|amounts|, i requires 0 <= i < |amounts| => Share(contributors[i].neuron, amounts[i]))
  }

  function AmountsOf(shares: seq<Share>): (r: seq<nat>)
    ensures |r| == |shares| && forall i :: 0 <= i < |r| ==> r[i] == shares[i].amount
  {
    seq(|shares|, i requires 0 <= i < |shares| => shares[i].amount)
  }

  /** A neuron's amount: its first entry, or nothing. */
  function ShareOf(shares: seq<Share>, neuron: Id): nat {
    if shares == [] then 0
    else if shares[0].neuron == neuron then shares[0].amount
    else ShareOf(shares[1..], neuron)
  }

  // ---------- beacons, receipts and certificates ----------

  /** The beacon over a claims root and a signal root after t squarings. */
  function BeaconOver(fns: Functions, epoch: nat, prev: Id, claimsRoot: Id, signalRoot: Id, t: nat): Beacon {
    var input := fns.vdfInput(epoch, prev, claimsRoot, signalRoot);
    var output := Vdf.Output(input, t);
    Beacon(epoch, prev, claimsRoot, signalRoot, Vdf.VdfProof(input, output, t),
           fns.beaconDigest(epoch, prev, claimsRoot, signalRoot, output))
  }

  predicate BeaconHolds(fns: Functions, b: Beacon) {
    && Vdf.Accepts(b.outer)
    && b.outer.input == fns.vdfInput(b.epoch, b.prev, b.claimsRoot, b.signalRoot)
    && fns.beaconDigest(b.epoch, b.prev, b.claimsRoot, b.signalRoot, b.outer.output) == b.value
  }

  function ByNeuron(): (Share, Share) -> bool {
    (a: Share, b: Share) => a.neuron <= b.neuron
  }

  /** The hash of a receipt's epoch, beacon and shares, the shares sorted by neuron. */
  function ReceiptHash(fns: Functions, epoch: nat, beacon: Id, shares: seq<Share>): Id {
    fns.receiptHash(epoch, beacon, Sort(shares, ByNeuron()))
  }

  predicate ReceiptHolds(fns: Functions, rec: Receipt) {
    && rec.receiptHash == ReceiptHash(fns, rec.epoch, rec.beacon, rec.shares)
    && (rec.artifact.Some? ==> BeaconHolds(fns, rec.artifact.value) && rec.artifact.value.value == rec.beacon)
    && (rec.ticketSeal.Some? ==> SealHolds(fns.proofs, rec.ticketSeal.value))
    && (rec.foldSeal.Some? ==> SealHolds(fns.proofs, rec.foldSeal.value))
  }

  function CertHash(fns: Functions, c: Certificate): Id {
    fns.certHash(CertBody(
      c.epoch, c.tip, c.claimsRoot, c.beacon.value,
      if c.settle.Some? then Some(c.settle.value.receiptHash) else None, c.phi,
      if c.ticketSeal.Some? then Some((c.ticketSeal.value.steps, fns.proofs.stepCount(c.ticketSeal.value.acc))) else None))
  }

  predicate SettlementHolds(fns: Functions, c: Certificate, rec: Receipt, inputs: Option<Inputs>) {
    && ReceiptHolds(fns, rec)
    && rec.epoch == c.epoch && rec.beacon == c.beacon.value && rec.claimsRoot == c.claimsRoot
    && (c.ticketSeal.Some? ==> SealHolds(fns.proofs, c.ticketSeal.value))
    && (inputs.Some? ==> inputs.value.claims != [] && fns.directed(inputs.value.base, inputs.value.claims) == rec.directedTotal)
  }

  predicate CertHolds(fns: Functions, c: Certificate, inputs: Option<Inputs>) {
    && c.certHash == CertHash(fns, c)
    && c.tip.trust != Untrusted
    && BeaconHolds(fns, c.beacon) && c.beacon.claimsRoot == c.claimsRoot && c.beacon.epoch == c.epoch
    && (c.settle.Some? ==> SettlementHolds(fns, c, c.settle.value, inputs))
  }

  // ---------- the epoch ----------

  /** A new epoch. */
  function Fresh(epoch: nat, prevBeacon: Id): EpochState {
    EpochState(epoch, prevBeacon, Propose, [], None, None, None, OUTER_T, 1000)
  }

  /** From the freeze on the root is that of the claims; beacon and receipt carry it; the beacon holds; a receipt pays its
      budget. */
  ghost predicate Sound(fns: Functions, e: EpochState) {
    && (e.phase == Propose <==> e.claimsRoot == None)
    && (e.phase != Propose ==> e.claims != [] && e.claimsRoot == Some(fns.rootOf(ClaimIds(e.claims))))
    && (e.phase in {BeaconReady, Settled} <==> e.beacon.Some?)
    && (e.beacon.Some? ==> BeaconOf(fns, e, e.beacon.value))
    && (e.phase == Settled <==> e.receipt.Some?)
    && (e.receipt.Some? ==> Pays(e.receipt.value) && e.receipt.value.claimsRoot == fns.rootOf(ClaimIds(e.claims)))
  }

  ghost predicate BeaconOf(fns: Functions, e: EpochState, b: Beacon) {
    && b.epoch == e.epoch && b.prev == e.prevBeacon && b.claimsRoot == fns.rootOf(ClaimIds(e.claims))
    && BeaconHolds(fns, b)
  }

  /** The amounts of a receipt add up to its budget. */
  ghost predicate Pays(r: Receipt) {
    Total(AmountsOf(r.shares)) == r.budget
  }

  function Froze(fns: Functions, e: EpochState): EpochState {
    e.(phase := Frozen, claimsRoot := Some(fns.rootOf(ClaimIds(e.claims))))
  }

  /** The beacon that a frozen epoch opens. */
  function NextBeacon(fns: Functions, e: EpochState, signalRoot: Id): Beacon {
    BeaconOver(fns, e.epoch, e.prevBeacon, fns.rootOf(ClaimIds(e.claims)), signalRoot, e.outerT)
  }

  function Opened(fns: Functions, e: EpochState, signalRoot: Id): EpochState {
    e.(phase := BeaconReady, beacon := Some(NextBeacon(fns, e, signalRoot)))
  }

  /** The seal over the tickets, if there are any, and the seal over the merges. */
  function TicketSeal(fns: Functions, b: Beacon, work: SettleWork): Option<Seal>
    requires work.Found?
  {
    Proved(fns.proofs, work.tickets, fns.statement(b.value, b.claimsRoot, |work.tickets|))
  }

  function FoldSeal(fns: Functions, b: Beacon, work: SettleWork): Option<Seal>
    requires work.Found?
  {
    Proved(fns.proofs, work.merges, fns.statement(b.value, b.claimsRoot, work.samples))
  }

  /** The work has weight, and the proof system proves it. */
  predicate Workable(fns: Functions, b: Beacon, work: SettleWork) {
    && work.Found? && Total(WeightsOf(work.contributors)) > 0
    && (work.tickets == [] || TicketSeal(fns, b, work).Some?)
    && FoldSeal(fns, b, work).Some? && SealHolds(fns.proofs, FoldSeal(fns, b, work).value)
  }

  /** When settling succeeds. */
  predicate Settles(fns: Functions, e: EpochState, work: SettleWork) {
    && e.phase == BeaconReady && e.budget > 0
    && e.beacon.Some? && BeaconHolds(fns, e.beacon.value) && Workable(fns, e.beacon.value, work)
  }

  ghost function ReceiptOf(fns: Functions, e: EpochState, base: Id, work: SettleWork): Receipt
    requires Settles(fns, e, work)
  {
    var shares := Shares(work.contributors, SplitOf(WeightsOf(work.contributors), e.budget));
    var b := e.beacon.value;
    Receipt(e.epoch, b.value, b.claimsRoot, ReceiptHash(fns, e.epoch, b.value, shares), fns.directed(base, e.claims), e.budget,
            shares, Some(b), if work.tickets == [] then None else TicketSeal(fns, b, work), FoldSeal(fns, b, work), work.samples)
  }

  function WithReceipt(e: EpochState, rec: Receipt): EpochState {
    e.(phase := Settled, receipt := Some(rec))
  }

  // ---------- rewards ----------

  predicate Due(p: Pending, height: nat, depth: nat) {
    height >= SaturatingAdd(p.mintHeight, depth)
  }

  function PendingSum(ps: seq<Pending>): nat {
    if ps == [] then 0 else PendingSum(ps[..|ps| - 1]) + ps[|ps| - 1].amount
  }

  /** What stays pending at a height, and what matures. */
  function Kept(ps: seq<Pending>, height: nat, depth: nat): seq<Pending> {
    if ps == [] then []
    else Kept(ps[..|ps| - 1], height, depth) + if Due(ps[|ps| - 1], height, depth) then [] else [ps[|ps| - 1]]
  }

  function Ripe(ps: seq<Pending>, height: nat, depth: nat): seq<Pending> {
    if ps == [] then []
    else Ripe(ps[..|ps| - 1], height, depth) + if Due(ps[|ps| - 1], height, depth) then [ps[|ps| - 1]] else []
  }

  /** A number as a saturating counter shows it. */
  function Capped(n: nat): nat {
    if n > U64_MAX then U64_MAX else n
  }

  function Matured(setup: Setup, s: NodeState): NodeState {
    s.(pending := Kept(s.pending, s.tip.height, setup.depth),
       matured := Capped(s.matured + PendingSum(Ripe(s.pending, s.tip.height, setup.depth))))
  }

  /** What a receipt adds to the pending rewards of a neuron. */
  function Entry(neuron: Id, rec: Receipt, mintHeight: nat): seq<Pending> {
    var amount := ShareOf(rec.shares, neuron);
    if amount == 0 then [] else [Pending(amount, rec.receiptHash, mintHeight)]
  }

  function Credited(setup: Setup, s: NodeState, rec: Receipt, mintHeight: nat): NodeState {
    if rec.receiptHash in s.credited then s
    else s.(credited := s.credited + {rec.receiptHash}, pending := s.pending + Entry(setup.neuron, rec, mintHeight))
  }

  // ---------- the node ----------

  function Start(setup: Setup): NodeState {
    NodeState(Tip(0, 0, if setup.mode.Light? then Untrusted else if setup.sealed then FoldDecided else LocalApplied),
              map[], Fresh(1, 0), None, 1000, [], {}, 0)
  }

  function NextTip(setup: Setup, s: NodeState): Tip {
    var height := SaturatingAdd(s.tip.height, 1);
    Tip(height, setup.fns.tipRoot(height, |s.signals|), if setup.mode.Light? then LocalApplied else FoldDecided)
  }

  /** `folds`: whether the tip prover folds and seals the new height; a light node has none. */
  function Bumped(setup: Setup, s: NodeState, folds: bool): (NodeState, LiveResult<()>) {
    if !setup.mode.Light? && !folds then (s, Err(TipAdvanceFailed))
    else (Matured(setup, s.(tip := NextTip(setup, s))), Ok(()))
  }

  function WithSignal(s: NodeState, sig: Signal): NodeState {
    s.(signals := s.signals[sig.id := sig],
       epoch := if s.epoch.phase == Propose
                then s.epoch.(claims := s.epoch.claims + [Claim(sig.id, sig.neuron, sig.content)]) else s.epoch)
  }

  function Ingested(setup: Setup, s: NodeState, sig: Signal, folds: bool): (NodeState, LiveResult<()>) {
    if setup.mode.Light? then (s, Err(WrongMode))
    else if sig.id in s.signals then (s, Ok(()))
    else Bumped(setup, WithSignal(s, sig), folds)
  }

  /** Frozen, if still proposing, and then opened, as far as that goes; `empty` is the error for an epoch without claims. */
  function Readied(fns: Functions, e: EpochState, signalRoot: Id, empty: LiveError): (EpochState, LiveResult<()>) {
    if e.phase == Propose && e.claims == [] then (e, Err(empty))
    else
      var frozen := if e.phase == Propose then Froze(fns, e) else e;
      if frozen.phase != Frozen then (frozen, Ok(()))
      else if !BeaconHolds(fns, NextBeacon(fns, frozen, signalRoot)) then (frozen, Err(EpochFailed))
      else (Opened(fns, frozen, signalRoot), Ok(()))
  }

  function BeaconOpened(setup: Setup, s: NodeState, signalRoot: Id): (NodeState, LiveResult<Id>) {
    if setup.mode.Light? then (s, Err(WrongMode))
    else
      var (e, r) := Readied(setup.fns, s.epoch, signalRoot, EpochFailed);
      (s.(epoch := e), if r.Err? then Err(r.error) else Ok(if e.claimsRoot.Some? then e.claimsRoot.value else 0))
  }

  /** The certificate a node issues for its epoch. */
  function CertificateFor(fns: Functions, tip: Tip, e: EpochState, rec: Receipt): Certificate
    requires e.beacon.Some?
  {
    var c := Certificate(e.epoch, tip, rec.claimsRoot, e.beacon.value, None, Some(rec), rec.ticketSeal, 0);
    c.(certHash := CertHash(fns, c))
  }

  /** The state with the certificate, in the next epoch. */
  function Certified(setup: Setup, s: NodeState, cert: Certificate): NodeState {
    Matured(setup, s.(lastCert := Some(cert),
                      epoch := Fresh(SaturatingAdd(s.epoch.epoch, 1), cert.beacon.value).(budget := s.budget)))
  }

  /** The epoch as closing finds it: with the node's budget and the delay of the node. */
  function Funded(s: NodeState): EpochState {
    s.epoch.(budget := s.budget, outerT := OUTER_T)
  }

  ghost function Closed(setup: Setup, s: NodeState, c: Closing): (NodeState, LiveResult<Certificate>) {
    if setup.mode.Light? then (s, Err(WrongMode))
    else
      var (ready, r) := Readied(setup.fns, Funded(s), c.signalRoot, NoClaims);
      if r.Err? then (s.(epoch := ready), Err(r.error))
      else if !Settles(setup.fns, ready, c.work) then (s.(epoch := ready), Err(SettleFailed))
      else
        var rec := ReceiptOf(setup.fns, ready, c.base, c.work);
        var settled := s.(epoch := WithReceipt(ready, rec));
        if !ReceiptHolds(setup.fns, rec) then (settled, Err(SettleFailed))
        else
          var paid := Credited(setup, settled, rec, s.tip.height);
          var cert := CertificateFor(setup.fns, s.tip, ready, rec);
          if CertHolds(setup.fns, cert, Some(Inputs(c.base, ready.claims)))
          then (Certified(setup, paid, cert), Ok(cert)) else (paid, Err(CertInvalid))
  }

  /** The tip after a certificate: a light node takes the certificate's, unless it is lower and not decided by folding. */
  function TipAfter(setup: Setup, s: NodeState, cert: Certificate): Tip {
    if setup.mode.Light? && (cert.tip.trust == FoldDecided || cert.tip.height >= s.tip.height)
    then Tip(cert.tip.height, cert.tip.root, LocalApplied) else s.tip
  }

  function Accepted(setup: Setup, s: NodeState, cert: Certificate, inputs: Option<Inputs>): (NodeState, LiveResult<()>) {
    if !CertHolds(setup.fns, cert, inputs) then (s, Err(CertInvalid))
    else
      var tipped := s.(tip := TipAfter(setup, s, cert), lastCert := Some(cert));
      var paid := if cert.settle.Some? then Credited(setup, tipped, cert.settle.value, cert.tip.height) else tipped;
      (Matured(setup, paid), Ok(()))
  }

  function Joined(setup: Setup, s: NodeState, tip: Tip): (NodeState, LiveResult<()>) {
    if !setup.mode.Light? then (s, Err(WrongMode))
    else if tip.trust == Untrusted then (s, Err(TipUntrusted))
    else (s.(tip := tip), Ok(()))
  }

  /** `folds`: whether the tip takes the new block. */
  function Advanced(setup: Setup, s: NodeState, height: nat, root: Id, folds: bool): (NodeState, LiveResult<()>) {
    if !setup.mode.Light? then (s, Err(WrongMode))
    else if s.tip.trust != FoldDecided || height < s.tip.height || !folds then (s, Err(TipAdvanceFailed))
    else (s.(tip := s.tip.(height := height, root := root)), Ok(()))
  }
}
