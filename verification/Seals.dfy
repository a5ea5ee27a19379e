/** Sealed batches of fold steps (src/ticket_proof.rs:24-157). The folding proof system is a parameter: how a step is
    folded, how an accumulator is decided, and what verifies are its functions. */
module Seals {
  import opened Words

  /** Accumulators, materials, statements and proofs are only passed on, so they stand as numbers. */
  type Id = nat

  datatype ProofSystem = ProofSystem(
    blank: Id, fold: (Id, Id) -> Option<Id>, stepCount: Id -> nat, decide: (Id, Id) -> Option<Id>,
    verifies: (Id, Id, Id) -> bool)

  datatype Seal = Seal(acc: Id, proof: Id, statement: Id, steps: nat)

  /** The accumulator counts the steps folded into it. */
  ghost predicate CountsSteps(ps: ProofSystem) {
    && ps.stepCount(ps.blank) == 0
    && forall a, m :: ps.fold(a, m).Some? ==> ps.stepCount(ps.fold(a, m).value) == ps.stepCount(a) + 1
  }

  /** What verification of a seal checks. */
  predicate SealHolds(ps: ProofSystem, seal: Seal) {
    ps.verifies(seal.acc, seal.proof, seal.statement) && ps.stepCount(seal.acc) == seal.steps && seal.steps > 0
  }

  method VerifyFoldSeal(ps: ProofSystem, seal: Seal) returns (ok: bool)
    ensures ok <==> SealHolds(ps, seal)
  {
    return ps.verifies(seal.acc, seal.proof, seal.statement) && ps.stepCount(seal.acc) == seal.steps && seal.steps > 0;
  }

  /** The accumulator with all the materials folded in, in order. */
  function FoldedAll(ps: ProofSystem, materials: seq<Id>): Option<Id> {
    if materials == [] then Some(ps.blank)
    else
      match FoldedAll(ps, materials[..|materials| - 1])
      case None => None
      case Some(acc) => ps.fold(acc, materials[|materials| - 1])
  }

  function Steps(materials: seq<Id>): nat {
    if |materials| > U64_MAX then U64_MAX else |materials|
  }

  /** The seal over a batch of materials, or nothing if there are none or the proof system refuses. */
  function Proved(ps: ProofSystem, materials: seq<Id>, statement: Id): Option<Seal> {
    if materials == [] || FoldedAll(ps, materials).None? then None
    else
      var acc := FoldedAll(ps, materials).value;
      match ps.decide(acc, statement)
      case None => None
      case Some(proof) =>
        if ps.verifies(acc, proof, statement) then Some(Seal(acc, proof, statement, Steps(materials))) else None
  }

  class TicketProver {
    const ps: ProofSystem
    var acc: Id
    var steps: nat

    /** The materials folded so far. */
    ghost var folded: seq<Id>

    ghost predicate Valid()
      reads this
    {
      FoldedAll(ps, folded) == Some(acc) && steps == Steps(folded)
    }

    constructor (ps: ProofSystem)
      ensures Valid() && this.ps == ps && folded == []
    {
      this.ps, acc, steps, folded := ps, ps.blank, 0, [];
    }

    method FoldMaterial(material: Id) returns (ok: bool)
      requires Valid()
      modifies this
      ensures Valid() && ok == FoldedAll(ps, old(folded) + [material]).Some?
      ensures folded == if ok then old(folded) + [material] else old(folded)
    {
      assert (folded + [material])[..|folded|] == folded;
      var next := ps.fold(acc, material);
      if next.None? {
        return false;
      }
      acc, steps, folded := next.value, SaturatingAdd(steps, 1), folded + [material];
      return true;
    }

    method MakeSeal(statement: Id) returns (seal: Option<Seal>)
      requires Valid()
      ensures seal == Proved(ps, folded, statement)
    {
      if steps == 0 {
        return None;
      }
      var proof := ps.decide(acc, statement);
      if proof.None? || !ps.verifies(acc, proof.value, statement) {
        return None;
      }
      return Some(Seal(acc, proof.value, statement, steps));
    }
  }

  /** Folds the materials one after the other and seals them. */
  method ProveBatch(ps: ProofSystem, materials: seq<Id>, statement: Id) returns (seal: Option<Seal>)
    ensures seal == Proved(ps, materials, statement)
  {
    var prover := new TicketProver(ps);
    var i := 0;
    assert materials[..0] == [];
    while i < |materials|
      invariant 0 <= i <= |materials| && fresh(prover) && prover.Valid() && prover.ps == ps
      invariant prover.folded == materials[..i]
    {
      assert materials[..i] + [materials[i]] == materials[..i + 1];
      var ok := prover.FoldMaterial(materials[i]);
      if !ok {
        RefusedStays(ps, materials, i + 1);
        return None;
      }
      i := i + 1;
    }
    assert materials[..i] == materials;
    seal := prover.MakeSeal(statement);
  }

  lemma {:induction false} RefusedStays(ps: ProofSystem, materials: seq<Id>, i: nat)
    requires i <= |materials| && FoldedAll(ps, materials[..i]).None?
    ensures FoldedAll(ps, materials).None?
    decreases |materials|
  {
    if i < |materials| {
      assert materials[..|materials| - 1][..i] == materials[..i];
      RefusedStays(ps, materials[..|materials| - 1], i);
    } else {
      assert materials[..i] == materials;
    }
  }

  lemma {:induction false} StepsCounted(ps: ProofSystem, materials: seq<Id>)
    requires CountsSteps(ps) && FoldedAll(ps, materials).Some?
    ensures ps.stepCount(FoldedAll(ps, materials).value) == |materials|
  {
    if materials != [] {
      StepsCounted(ps, materials[..|materials| - 1]);
    }
  }

  /** Every seal that the prover makes over fewer than 2^64 materials passes verification. */
  lemma ProvedHolds(ps: ProofSystem, materials: seq<Id>, statement: Id)
    requires CountsSteps(ps) && |materials| <= U64_MAX && Proved(ps, materials, statement).Some?
    ensures SealHolds(ps, Proved(ps, materials, statement).value)
  {
    StepsCounted(ps, materials);
  }

  /** A seal over folded materials passes verification exactly if its proof does and it counts those materials, at least
      one. */
  lemma HoldsIff(ps: ProofSystem, materials: seq<Id>, seal: Seal)
    requires CountsSteps(ps) && FoldedAll(ps, materials) == Some(seal.acc)
    ensures SealHolds(ps, seal) <==>
            materials != [] && seal.steps == |materials| && ps.verifies(seal.acc, seal.proof, seal.statement)
  {
    StepsCounted(ps, materials);
  }
}
