/** What the checks of a live node rule out (src/rewards.rs:548-567, src/epoch_cert.rs:120-185, src/beacon.rs:116-133): an
    accepted artefact is bound to its contents, and so is every receipt credited on a run. */
module LiveChecks {
  import opened Sequences
  import opened Sorting
  import opened Words
  import opened Seals
  import opened LiveStates
  import opened LiveRuns
  import Vdf
  import Allocation

  // ---------- receipts ----------

  /** The hash of receipts does not collide on these two. */
  ghost predicate Apart(fns: Functions, a: Receipt, b: Receipt) {
    ReceiptHash(fns, a.epoch, a.beacon, a.shares) == ReceiptHash(fns, b.epoch, b.beacon, b.shares) ==>
      a.epoch == b.epoch && a.beacon == b.beacon && Sort(a.shares, ByNeuron()) == Sort(b.shares, ByNeuron())
  }

  /** The same settlement: epoch, beacon, the same shares in whatever order, and so the same amount for every neuron. */
  ghost predicate SameSettlement(a: Receipt, b: Receipt) {
    && a.epoch == b.epoch && a.beacon == b.beacon && multiset(a.shares) == multiset(b.shares)
    && forall neuron :: ShareOf(a.shares, neuron) == ShareOf(b.shares, neuron)
  }

  lemma {:induction false} InsertKeepsShare(x: Share, s: seq<Share>, neuron: Id)
    ensures ShareOf(Insert(x, s, ByNeuron()), neuron) == if x.neuron == neuron then x.amount else ShareOf(s, neuron)
  {
    if s != [] && !(x.neuron <= s[0].neuron) {
      InsertKeepsShare(x, s[1..], neuron);
    }
  }

  /** Sorting by neuron keeps every neuron's first entry first. */
  lemma {:induction false} SortKeepsShare(s: seq<Share>, neuron: Id)
    ensures ShareOf(Sort(s, ByNeuron()), neuron) == ShareOf(s, neuron)
  {
    if s != [] {
      SortKeepsShare(s[1..], neuron);
      InsertKeepsShare(s[0], Sort(s[1..], ByNeuron()), neuron);
    }
  }

  /** A neuron's amount is that of its first entry; without an entry there is none. */
  lemma {:induction false} ShareIsFirst(s: seq<Share>, neuron: Id, i: nat)
    requires i <= |s| && forall j :: 0 <= j < i ==> s[j].neuron != neuron
    ensures i == |s| ==> ShareOf(s, neuron) == 0
    ensures i < |s| && s[i].neuron == neuron ==> ShareOf(s, neuron) == s[i].amount
  {
    if i > 0 {
      ShareIsFirst(s[1..], neuron, i - 1);
    }
  }

  lemma SortedSame(a: Receipt, b: Receipt)
    requires a.epoch == b.epoch && a.beacon == b.beacon && Sort(a.shares, ByNeuron()) == Sort(b.shares, ByNeuron())
    ensures SameSettlement(a, b)
  {
    SortRearranges(a.shares, ByNeuron());
    SortRearranges(b.shares, ByNeuron());
    forall neuron
      ensures ShareOf(a.shares, neuron) == ShareOf(b.shares, neuron)
    {
      SortKeepsShare(a.shares, neuron);
      SortKeepsShare(b.shares, neuron);
    }
  }

  /** Two accepted receipts with one hash are of the same settlement. */
  lemma ReceiptsBind(fns: Functions, a: Receipt, b: Receipt)
    requires ReceiptHolds(fns, a) && ReceiptHolds(fns, b) && Apart(fns, a, b) && a.receiptHash == b.receiptHash
    ensures SameSettlement(a, b)
  {
    hide ReceiptHash, BeaconHolds, SealHolds, SameSettlement;
    SortedSame(a, b);
  }

  /** An accepted receipt comes with the beacon and the seals it claims. */
  lemma ReceiptStands(fns: Functions, rec: Receipt)
    requires ReceiptHolds(fns, rec)
    ensures rec.artifact.Some? ==> rec.beacon == rec.artifact.value.value && BeaconHolds(fns, rec.artifact.value)
    ensures rec.ticketSeal.Some? ==> SealHolds(fns.proofs, rec.ticketSeal.value)
    ensures rec.foldSeal.Some? ==> SealHolds(fns.proofs, rec.foldSeal.value)
  {
    hide ReceiptHash, BeaconHolds, SealHolds;
  }

  // ---------- certificates ----------

  /** What the hash of a certificate covers. */
  function BodyOf(fns: Functions, c: Certificate): CertBody {
    CertBody(c.epoch, c.tip, c.claimsRoot, c.beacon.value,
             if c.settle.Some? then Some(c.settle.value.receiptHash) else None, c.phi,
             if c.ticketSeal.Some? then Some((c.ticketSeal.value.steps, fns.proofs.stepCount(c.ticketSeal.value.acc))) else None)
  }

  /** Neither hash collides on these two certificates. */
  ghost predicate CertsApart(fns: Functions, a: Certificate, b: Certificate) {
    && (fns.certHash(BodyOf(fns, a)) == fns.certHash(BodyOf(fns, b)) ==> BodyOf(fns, a) == BodyOf(fns, b))
    && (a.settle.Some? && b.settle.Some? ==> Apart(fns, a.settle.value, b.settle.value))
  }

  /** Two accepted certificates with one hash agree in epoch, tip, claims root, beacon and settlement. */
  lemma CertsBind(fns: Functions, a: Certificate, ia: Option<Inputs>, b: Certificate, ib: Option<Inputs>)
    requires CertHolds(fns, a, ia) && CertHolds(fns, b, ib) && CertsApart(fns, a, b) && a.certHash == b.certHash
    ensures a.epoch == b.epoch && a.tip == b.tip && a.claimsRoot == b.claimsRoot && a.phi == b.phi
    ensures a.beacon.value == b.beacon.value && a.beacon.epoch == b.beacon.epoch && a.beacon.claimsRoot == b.beacon.claimsRoot
    ensures a.settle.Some? <==> b.settle.Some?
    ensures a.settle.Some? ==> SameSettlement(a.settle.value, b.settle.value)
  {
    hide ReceiptHash, BeaconHolds, SealHolds, SameSettlement, ReceiptHolds, Apart;
    assert CertHash(fns, a) == fns.certHash(BodyOf(fns, a)) && CertHash(fns, b) == fns.certHash(BodyOf(fns, b));
    if a.settle.Some? && b.settle.Some? {
      ReceiptsBind(fns, a.settle.value, b.settle.value);
    }
  }

  /** A certificate in whose receipt any neuron's amount was changed, and no hash, is refused. */
  lemma ChangedSharesRefused(fns: Functions, c: Certificate, ic: Option<Inputs>, shares: seq<Share>, neuron: Id, inputs: Option<Inputs>)
    requires CertHolds(fns, c, ic) && c.settle.Some? && ShareOf(shares, neuron) != ShareOf(c.settle.value.shares, neuron)
    requires CertsApart(fns, c, c.(settle := Some(c.settle.value.(shares := shares))))
    ensures !CertHolds(fns, c.(settle := Some(c.settle.value.(shares := shares))), inputs)
  {
    var changed := c.(settle := Some(c.settle.value.(shares := shares)));
    hide CertHolds, CertsApart;
    if CertHolds(fns, changed, inputs) {
      CertsBind(fns, c, ic, changed, inputs);
    }
  }

  // ---------- beacons ----------

  /** Two accepted beacons over the same fields and after the same number of squarings, at least one, are the same. */
  lemma BeaconsAgree(fns: Functions, a: Beacon, b: Beacon)
    requires BeaconHolds(fns, a) && BeaconHolds(fns, b) && a.outer.iterations == b.outer.iterations >= 1
    requires a.epoch == b.epoch && a.prev == b.prev && a.claimsRoot == b.claimsRoot && a.signalRoot == b.signalRoot
    ensures a == b && a.value == fns.beaconDigest(a.epoch, a.prev, a.claimsRoot, a.signalRoot,
                                                  Vdf.Output(fns.vdfInput(a.epoch, a.prev, a.claimsRoot, a.signalRoot), a.outer.iterations))
  {
    hide Vdf.Output;
  }

  /** The digest of beacons does not collide on these two. */
  ghost predicate DigestsApart(fns: Functions, a: Beacon, b: Beacon) {
    var da := fns.beaconDigest(a.epoch, a.prev, a.claimsRoot, a.signalRoot, a.outer.output);
    var db := fns.beaconDigest(b.epoch, b.prev, b.claimsRoot, b.signalRoot, b.outer.output);
    da == db ==> a.epoch == b.epoch && a.prev == b.prev && a.claimsRoot == b.claimsRoot && a.signalRoot == b.signalRoot
                 && a.outer.output == b.outer.output
  }

  /** Two accepted beacons with one value are over the same fields and the same output. */
  lemma BeaconsBind(fns: Functions, a: Beacon, b: Beacon)
    requires BeaconHolds(fns, a) && BeaconHolds(fns, b) && a.value == b.value
    requires DigestsApart(fns, a, b)
    ensures a.epoch == b.epoch && a.prev == b.prev && a.claimsRoot == b.claimsRoot && a.signalRoot == b.signalRoot
    ensures a.outer.input == b.outer.input && a.outer.output == b.outer.output
  {
    hide Vdf.Accepts;
  }

  // ---------- runs ----------

  lemma PresentedHolds(setup: Setup, s: NodeState, e: Event)
    ensures Presented(setup, s, e).Some? ==> ReceiptHolds(setup.fns, Presented(setup, s, e).value)
  {
    hide ReceiptHolds, BeaconHolds, SealHolds, Readied, ReceiptOf, Settles;
  }

  /** Every receipt credited on a run has the hash of its own contents, its beacon and its seals. */
  lemma {:induction false} CreditedHold(setup: Setup, events: seq<Event>)
    ensures forall rec :: rec in CreditLog(setup, events) ==> ReceiptHolds(setup.fns, rec)
    ensures forall rec :: rec in CreditLog(setup, events) ==>
      rec.receiptHash == setup.fns.receiptHash(rec.epoch, rec.beacon, Sort(rec.shares, ByNeuron()))
  {
    hide Presented, After, BeaconHolds, SealHolds;
    if events != [] {
      var before := events[..|events| - 1];
      CreditedHold(setup, before);
      PresentedHolds(setup, After(setup, before), events[|events| - 1]);
    }
  }

  /** No settlement is credited twice, under whatever hashes and in whatever order of its shares. */
  lemma SettlementsOnce(setup: Setup, events: seq<Event>, i: nat, j: nat)
    requires i < j < |CreditLog(setup, events)|
    ensures
      var a, b := CreditLog(setup, events)[i], CreditLog(setup, events)[j];
      !(a.epoch == b.epoch && a.beacon == b.beacon && Sort(a.shares, ByNeuron()) == Sort(b.shares, ByNeuron()))
  {
    CreditedHold(setup, events);
    CreditedOnce(setup, events);
    var log := CreditLog(setup, events);
    assert log[i] in log && log[j] in log;
    assert Hashes(log)[i] != Hashes(log)[j];
    hide CreditLog, ReceiptHolds, Sort;
  }

  /** No settlement is kept from being credited by another: where the hash of receipts does not collide, every receipt that
      an event presents has its settlement in the log. */
  lemma {:induction false} NoneSuppressed(setup: Setup, events: seq<Event>, i: nat)
    requires i < |events| && PresentedAt(setup, events, i).Some?
    requires forall rec :: rec in CreditLog(setup, events) ==> Apart(setup.fns, rec, PresentedAt(setup, events, i).value)
    ensures exists rec :: rec in CreditLog(setup, events) && SameSettlement(rec, PresentedAt(setup, events, i).value)
  {
    var presented := PresentedAt(setup, events, i).value;
    CreditedIff(setup, events, presented.receiptHash);
    CreditedOnce(setup, events);
    CreditedHold(setup, events);
    PresentedHolds(setup, After(setup, events[..i]), events[i]);
    hide After, CreditLog, Presented, ReceiptHolds, SameSettlement, Apart;
    var log := CreditLog(setup, events);
    assert presented.receiptHash in Hashes(log);
    var k :| 0 <= k < |log| && Hashes(log)[k] == presented.receiptHash;
    assert log[k] in log;
    ReceiptsBind(setup.fns, log[k], presented);
  }

  /** The last certificate of a node, issued or accepted, has a trusted tip, and its beacon and receipt are of its own epoch
      and claims. */
  ghost predicate Coherent(fns: Functions, c: Certificate) {
    && c.tip.trust != Untrusted && c.beacon.epoch == c.epoch && c.beacon.claimsRoot == c.claimsRoot
    && Vdf.Accepts(c.beacon.outer)
    && (c.settle.Some? ==>
          var rec := c.settle.value;
          && rec.epoch == c.epoch && rec.beacon == c.beacon.value && rec.claimsRoot == c.claimsRoot
          && rec.receiptHash == fns.receiptHash(rec.epoch, rec.beacon, Sort(rec.shares, ByNeuron())))
    && (c.settle.Some? && c.ticketSeal.Some? ==> c.ticketSeal.value.steps > 0)
  }

  lemma AcceptedIsCoherent(fns: Functions, c: Certificate, inputs: Option<Inputs>)
    requires CertHolds(fns, c, inputs)
    ensures Coherent(fns, c)
    ensures inputs.Some? && c.settle.Some? ==>
      inputs.value.claims != [] && c.settle.value.directedTotal == fns.directed(inputs.value.base, inputs.value.claims)
  {
    hide Vdf.Accepts, CertHash;
  }

  lemma {:induction false} LastIsCoherent(setup: Setup, events: seq<Event>)
    ensures After(setup, events).lastCert.Some? ==> Coherent(setup.fns, After(setup, events).lastCert.value)
  {
    hide Next, Coherent;
    if events != [] {
      var before := events[..|events| - 1];
      LastIsCoherent(setup, before);
      CertStep(setup, After(setup, before), events[|events| - 1]);
    }
  }

  lemma CertStep(setup: Setup, s: NodeState, e: Event)
    ensures
      var t := Next(setup, s, e);
      t.lastCert == s.lastCert || (t.lastCert.Some? && Coherent(setup.fns, t.lastCert.value))
  {
    hide Kept, Ripe, PendingSum, Readied, ReceiptOf, Settles, ReceiptHolds, CertHolds, Coherent, Entry, CertHash;
    match e {
      case Close(c) => {
        var r := Closed(setup, s, c).1;
        if r.Ok? {
          AcceptedIsCoherent(setup.fns, r.value, Some(Inputs(c.base, Readied(setup.fns, Funded(s), c.signalRoot, NoClaims).0.claims)));
        }
      }
      case Accept(cert, inputs) => {
        if CertHolds(setup.fns, cert, inputs) {
          AcceptedIsCoherent(setup.fns, cert, inputs);
        }
      }
      case _ => {}
    }
  }

  // ---------- what is made ----------

  /** Every field of a receipt that settling makes, from the epoch and the work. */
  lemma ReceiptFields(fns: Functions, e: EpochState, base: Id, work: SettleWork)
    requires Sound(fns, e) && Settles(fns, e, work)
    ensures
      var rec := ReceiptOf(fns, e, base, work);
      && rec.epoch == e.epoch && rec.artifact == e.beacon && rec.beacon == e.beacon.value.value
      && rec.claimsRoot == fns.rootOf(ClaimIds(e.claims)) && rec.budget == e.budget && rec.samples == work.samples
      && rec.directedTotal == fns.directed(base, e.claims)
      && rec.receiptHash == fns.receiptHash(rec.epoch, rec.beacon, Sort(rec.shares, ByNeuron()))
      && |rec.shares| == |work.contributors|
      && (forall i :: 0 <= i < |rec.shares| ==> rec.shares[i].neuron == work.contributors[i].neuron)
      && rec.foldSeal.Some? && rec.foldSeal.value.statement == fns.statement(rec.beacon, rec.claimsRoot, work.samples)
      && rec.foldSeal.value.steps == |work.merges|
      && (rec.ticketSeal.Some? <==> work.tickets != [])
      && (rec.ticketSeal.Some? ==>
            rec.ticketSeal.value.statement == fns.statement(rec.beacon, rec.claimsRoot, |work.tickets|)
            && rec.ticketSeal.value.steps == |work.tickets|)
  {
    hide SealHolds, BeaconHolds, FoldedAll, Pays, ClaimIds;
  }

  /** Every field of the certificate of an epoch that closes, and the epoch that follows it. */
  lemma ClosedCert(setup: Setup, s: NodeState, c: Closing)
    requires Closed(setup, s, c).1.Ok? && s.epoch.epoch < U64_MAX
    ensures
      var (t, r) := Closed(setup, s, c);
      var cert := r.value;
      && cert.epoch == s.epoch.epoch && cert.tip == s.tip == t.tip && cert.phi.None? && cert.settle.Some?
      && cert.settle.value.epoch == cert.epoch == cert.beacon.epoch && cert.settle.value.artifact == Some(cert.beacon)
      && cert.claimsRoot == cert.settle.value.claimsRoot && cert.ticketSeal == cert.settle.value.ticketSeal
      && t.lastCert == Some(cert) && t.signals == s.signals && t.budget == s.budget
      && t.epoch.epoch == s.epoch.epoch + 1 && t.epoch.prevBeacon == cert.beacon.value
      && t.epoch.phase == Propose && t.epoch.claims == [] && t.epoch.budget == s.budget
  {
    hide Kept, Ripe, PendingSum, Entry, SealHolds, Pays, ClaimIds, Allocation.Total, CertHash, BeaconOver, NextBeacon;
  }

  /** One neuron's amount in such a receipt, where it contributes once: the floor of its weight's part of the budget, unless
      what is left over goes to it. */
  lemma ReceiptAmount(fns: Functions, e: EpochState, base: Id, work: SettleWork, i: nat)
    requires Settles(fns, e, work) && i < |work.contributors|
    ensures
      var ws := WeightsOf(work.contributors);
      var rec := ReceiptOf(fns, e, base, work);
      && |rec.shares| == |ws| && rec.shares[i].amount >= ws[i] * e.budget / Allocation.Total(ws)
      && (ws[i] == 0 ==> rec.shares[i].amount == 0)
  {
    hide SealHolds, BeaconHolds, FoldedAll;
    var ws := WeightsOf(work.contributors);
    ReceiptPays(fns, e, base, work);
    Allocation.SharesAreFair(ws, e.budget, AmountsOf(ReceiptOf(fns, e, base, work).shares), i);
  }

  /** A light node's tip: untrusted at first; a trusted one that it joins, or the tip of a certificate that it accepts, unless
      that is lower and was not decided by folding. Only a tip decided by folding advances, and not down. */
  lemma LightTips(setup: Setup, s: NodeState, e: Event)
    requires setup.mode.Light?
    ensures Start(setup).tip == Tip(0, 0, Untrusted)
    ensures
      var t := Next(setup, s, e).tip;
      match e
      case Join(tip) => t == if tip.trust == Untrusted then s.tip else tip
      case Advance(height, root, folds) =>
        t == if s.tip.trust == FoldDecided && folds && height >= s.tip.height then Tip(height, root, FoldDecided) else s.tip
      case Accept(cert, inputs) =>
        if !CertHolds(setup.fns, cert, inputs) || (cert.tip.trust != FoldDecided && cert.tip.height < s.tip.height) then t == s.tip
        else t == Tip(cert.tip.height, cert.tip.root, LocalApplied)
      case _ => t == s.tip
  {
    hide Kept, Ripe, PendingSum, CertHolds, Entry;
  }

  /** A full or cell node's tip changes only with a new signal whose height folds: by one, to the root of the height and the
      number of signals. */
  lemma FullTips(setup: Setup, s: NodeState, e: Event)
    requires !setup.mode.Light? && s.tip.height < U64_MAX
    ensures Next(setup, s, e).tip ==
            if e.Ingest? && e.sig.id !in s.signals && e.folds
            then Tip(s.tip.height + 1, setup.fns.tipRoot(s.tip.height + 1, |s.signals| + 1), FoldDecided) else s.tip
  {
    hide Kept, Ripe, PendingSum, CertHolds, Entry, Readied, ReceiptOf, Settles, ReceiptHolds, CertificateFor;
    if e.Ingest? && e.sig.id !in s.signals {
      assert s.signals[e.sig.id := e.sig].Keys == s.signals.Keys + {e.sig.id};
      assert |s.signals[e.sig.id := e.sig]| == |s.signals[e.sig.id := e.sig].Keys| == |s.signals.Keys| + 1;
    }
  }

  /** After an event that matures nothing due is left pending. */
  lemma NothingDueIsLeft(setup: Setup, s: NodeState, e: Event, p: Pending)
    requires Matures(setup, s, e) && p in Next(setup, s, e).pending
    ensures Next(setup, s, e).tip.height < SaturatingAdd(p.mintHeight, setup.depth)
  {
    RewardStep(setup, s, e);
    KeptAndRipe(s.pending + NewEntries(setup, s, e), Next(setup, s, e).tip.height, setup.depth, p);
    hide Next, Matures, NewEntries, Kept, Ripe;
  }

  /** Every beacon of a run was delayed by 32 squarings. */
  lemma {:induction false} BeaconsDelayed(setup: Setup, events: seq<Event>)
    ensures After(setup, events).epoch.beacon.Some? ==> After(setup, events).epoch.beacon.value.outer.iterations == 32
  {
    hide Next;
    if events != [] {
      var before := events[..|events| - 1];
      BeaconsDelayed(setup, before);
      EpochsSound(setup, before);
      DelayStep(setup, After(setup, before), events[|events| - 1]);
    }
  }

  lemma DelayStep(setup: Setup, s: NodeState, e: Event)
    requires s.epoch.outerT == OUTER_T && (s.epoch.beacon.Some? ==> s.epoch.beacon.value.outer.iterations == 32)
    ensures Next(setup, s, e).epoch.beacon.Some? ==> Next(setup, s, e).epoch.beacon.value.outer.iterations == 32
  {
    hide Kept, Ripe, PendingSum, ReceiptOf, Settles, ReceiptHolds, CertHolds, CertificateFor, Entry, BeaconHolds, ClaimIds, Vdf.Output;
  }
}
