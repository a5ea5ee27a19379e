# Verification of foculus

A Dafny model of the storage, reward and consensus algorithms of foculus, with proofs of what they promise. Each module
models one part of the library; the operations that change things step by step are methods or classes, proved against
specification functions, and the theorems are lemmas about those functions.

| module | models |
|---|---|
| `Numbers`, `Goldilocks`, `Polynomial`, `Transform`, `Interpolation` | the prime field with P = 2^64 − 2^32 + 1, its roots of unity, the number-theoretic transform and in-place Lagrange interpolation |
| `Erasure`, `Shards`, `Chunks`, `Das` | the erasure code, what its shards are in terms of the bytes, chunk stores and availability sampling |
| `DiskStates`, `DiskFacts`, `DiskRuns`, `DiskOutcomes`, `DiskBalance`, `DiskLosses`, `DiskTolerance`, `VirtualDisk` | the virtual disk: its states, what operations keep, what runs and single operations come to, what a rebalance moves, which losses files survive and exactly how many, and the manager itself |
| `Permutations`, `Drawing`, `Settlement`, `Tickets`, `Allocation` | the reward game: orderings, Shapley sums, the fold tree and the budget split |
| `Seals`, `LiveStates`, `LiveRuns`, `LiveChecks`, `Live` | the live node: sealed batches of fold steps, its states and checks, what runs keep, what the checks rule out, and the node itself around its epoch runner |
| `Partition` | canonical clustering by bounded search and union-find |
| `Vdf`, `Finality` | the sequential squaring function and its shortcut; the threshold and withholding inequalities |
| `Cursor`, `Wire`, `Radio`, `Frames`, `Layouts` | the message codecs, stream reassembly, signal payloads, and where every field stands |
| `Registry`, `Reconcile`, `Nmt` | the last-writer-wins registry, conflict resolution, the namespace Merkle tree |
| `Sequences`, `Sorting`, `Strings`, `Bytes`, `Words` | shared facts |

`dafny verify dfyconfig.toml` checks the whole project.

How the library's parts appear in the model:

- Field elements are integers below P, and P is proved prime. Functions of the external field library (transform, inverse
  transform, inverse, exponentiation) are modelled by what they compute.
- Hash functions, score functions and the value of a set of contributors are parameters, so the theorems hold for all of
  them. Freedom from collisions is a hypothesis of the theorems that need it, and only on the inputs actually hashed: in
  the virtual disk on the chunk texts of the run.
- `VirtualDisk` and `Live` are classes whose methods are proved to make of their state exactly what the functions of
  `DiskStates` and `LiveStates` say; the theorems are about those functions and every list of operations or events.
- The order in which a hash map or a tree set is walked is arbitrary. 32-byte ids that are only compared stand as their
  big-endian numbers in `Reconcile` and `LiveStates`; hexadecimal entry hashes stand as numbers in `Registry`.
- The clock, the network, what a grind finds and what a device choice comes to are inputs of the step they concern. The
  folding proof system is a parameter; where a seal must verify it is asked to count its steps.
- `Finality` is over exact reals.

Where the code and its documentation differ, the model follows the code:

- The comment on `decode_signal_frame` says a decoded signal has an empty `delta_pi`; the code carries it, and
  `Frames.RoundTripIff` proves it survives.
- The documentation of the registry calls merging commutative. On whole entries it is so exactly under the condition of
  `Registry.MergeCommutesIff`, because the entry hash does not cover every field.
- `verify` of the squaring function accepts (x, x) at zero iterations, where `evaluate` gives 1 for x = 0 and the reduced
  input for x ≥ P, whose own output it then refuses (`Vdf.ExactIff`, `Vdf.OwnProofAcceptedIff`).
- The availability verdict counts verifying answers, not different shards (`Das.RepeatedAnswersPass`); exactly when the
  data can be decoded is in `Das.AvailableMeansRecoverable` and `Das.SomeKDecodeIff`.
- The comment on `rechunk` says it re-encodes each file on the disk (src/vdisk.rs:335); the code goes through the whole
  registry (src/vdisk.rs:369-380), so a file of another disk takes on this disk's devices and tolerance.
  `DiskLosses.ToleranceIsLost` is a run where that loses a file, `DiskTolerance.RechunkSurvival` says exactly which losses
  a file survives afterwards.
- The comment on the light check of a completeness proof lists contiguity; the code compares neighbours only. Any sorted
  list of leaves of the namespace passes under any trusted root (`Nmt.LightCheckIgnoresTheTree`), leaves can be left out
  (`Nmt.OmissionPassesTheLightCheck`), and for no tree does acceptance mean completeness
  (`Nmt.LightCheckNeverProvesCompleteness`).

## Model

| member | source | states |
|---|---|---|
| `Goldilocks.PIsPrime` | src/erasure.rs:9 | The modulus P = 2^64 − 2^32 + 1 is prime, by a checked certificate and Proth's theorem; nothing about the field is assumed. |
| `Goldilocks.InvIsInverse` | src/erasure.rs:190 | The field inverse of every non-zero element is its inverse modulo P. |
| `Goldilocks.OmegaPowersDistinct` | src/erasure.rs:96-117 | For every power of two n ≤ 2^32 the n powers of ω = 7^((P−1)/n) are pairwise different, so shards are evaluations at different points. |
| `Numbers.Fermat` | src/vdf.rs:115-118 | a^(p−1) is 1 modulo every prime p that does not divide a. |
| `Numbers.Proth` | src/erasure.rs:9 | An n = h·2^(j+1)+1 with h < 2^(j+1) and some a^((n−1)/2) ≡ −1 is prime. |
| `Transform.Orthogonality` | src/erasure.rs:151 | The powers of a root of unity sum to n or to 0: the identity the inverse transform rests on. |
| `Transform.InttNtt` | src/erasure.rs:146-156 | The inverse transform undoes the transform on every vector of every transform size. |
| `Polynomial.RootBound` | src/erasure.rs:176-214 | A polynomial with as many distinct roots as coefficients has only zero coefficients modulo P. |
| `Polynomial.AgreeingPolynomials` | src/erasure.rs:176-214 | Two polynomials of at most k coefficients that agree at k distinct points have the same coefficients modulo P. |
| `Interpolation.InterpolateHits` | src/erasure.rs:176-214 | The interpolated polynomial takes the given value at every given point. |
| `Interpolation.InterpolateRecovers` | src/erasure.rs:176-214 | From the values of a polynomial at distinct points interpolation gives back exactly its coefficients. |
| `Interpolation.MultiplyByLinear` | src/erasure.rs:199-204 | Multiplying the basis array in place, from the top down, by (X − x) gives the product polynomial. |
| `Interpolation.Denominator` | src/erasure.rs:183-189 | The running product is the value at the own point of the product of the other linear factors. |
| `Interpolation.BuildBasis` | src/erasure.rs:192-206 | The in-place loop leaves the numerator polynomial of the i-th Lagrange basis. |
| `Interpolation.LagrangeInterpolate` | src/erasure.rs:176-214 | The whole in-place algorithm computes the interpolating polynomial. |
| `Erasure.UnpackPack` | src/erasure.rs:217-240 | Seven-byte packing into elements and unpacking gives every byte string back as a prefix. |
| `Erasure.BytesToElements` | src/erasure.rs:217-227 | The chunk loop packs seven bytes into each element, little-endian, the last chunk short. |
| `Erasure.ElementsToBytes` | src/erasure.rs:230-240 | The byte loops unpack seven bytes of every element and cut at the original length. |
| `Erasure.Encode` | src/erasure.rs:27-59 | The nested loops give shard s the s-th evaluation of every group's zero-padded polynomial. |
| `Shards.ShardSize` | src/erasure.rs:33-38 | A shard has one element for every k words of seven bytes, whole or partial, and none without data. |
| `Shards.ShardElement` | src/erasure.rs:49-56 | Element g of shard s is, modulo P, the sum over j < k of the number in bytes 7(gk+j) to 7(gk+j)+6 of the data, zero past its end, times 7^((P−1)/n) to the power s·j. |
| `Erasure.CheckComplete` | src/erasure.rs:161-173 | True exactly for n shards whose indices are in range and pairwise different. |
| `Erasure.CheckShards` | src/erasure.rs:100-112 | Reports the first shard with a bad index, a repeated index or a wrong length. |
| `Erasure.DecodeFull` | src/erasure.rs:137-158 | Scattering by index and inverse-transforming each group gives the groups' elements, unpacked and cut. |
| `Erasure.Decode` | src/erasure.rs:69-134 | The two-path decoder returns exactly what the decoding specification says, errors included. |
| `Erasure.AnyKShardsDecode` | src/erasure.rs:69-134 | For every byte string, k ≤ n and n a power of two up to 2^32: any list of at least k encoded shards with different indices, in any order, decodes to exactly the bytes. |
| `Erasure.EncodedShardsDecodeIff` | src/erasure.rs:69-134 | Encoded shards, at least k of them, decode to their data exactly if the first k are different ones. |
| `Erasure.PathsAgree` | src/erasure.rs:88-134 | On all n shards the inverse-transform path and the interpolation path read the same elements. |
| `Erasure.DecodesIff` | src/erasure.rs:69-134 | Exactly which shard lists decode: on the complete path those long enough, otherwise those whose first k shards have in-range, different indices and equal lengths. |
| `Erasure.BadIndexIsReported` | src/erasure.rs:100-112 | A repeated or out-of-range index among the first k shards is an error. |
| `Chunks.BytesElementsInverse` | src/store.rs:424-442 | Reading a shard's bytes back gives its elements. |
| `Shards.ElementBytesAt` | src/store.rs:424-430 | Element i of a shard stands in bytes 8i to 8i+7 of its byte form, little-endian. |
| `Chunks.ShardToBytes` | src/store.rs:424-430 | Eight little-endian bytes per element, in order. |
| `Chunks.BytesToShardLoop` | src/store.rs:433-442 | Whole words only; each is reduced into the field. |
| `Chunks.PutKeepsAddressing` | src/store.rs:134-154 | A put keeps every chunk filed under its own hash and loses none. |
| `Das.GlobalRootLoop` | src/das.rs:39-45 | The root is the hash of the concatenated shard roots. |
| `Das.ConcatAt` | src/das.rs:39-45 | The hashed text holds root i in bytes 32i to 32i+31. |
| `Das.DecideAvailability` | src/das.rs:146-160 | Available exactly when at least the required number of answers verify. |
| `Das.RootBinds` | src/das.rs:39-45 | With no collision on the hashed inputs, a commitment carrying the root of the true shards carries their shard roots. |
| `Das.VerifiesIff` | src/das.rs:90-101 | Under such a root a sample verifies exactly when it is the committed shard of its index, byte for byte. |
| `Das.VerifiedSamplesDecode` | src/das.rs:39-101 | Any k or more samples with different indices that verify against a commitment with the root of the encoded data decode to exactly that data. |
| `Das.HonestSampleVerifies` | src/das.rs:69-101 | Every honestly taken sample of every encoded shard verifies against the honest commitment. |
| `Das.SamplesDecodeIff` | src/das.rs:39-101 | Verifying samples, at least k of them, decode to the data exactly if the first k are of different shards. |
| `Das.SomeKDecodeIff` | src/das.rs:39-101 | Some choice of k of the verifying samples decodes exactly if they come from at least k different shards. |
| `Das.AvailableMeansRecoverable` | src/das.rs:146-160 | Behind a verdict with at least k passes the data is decoded from the passing answers exactly if the first k of them are about different shards. |
| `Das.RepeatedAnswersPass` | src/das.rs:146-160 | One verifying answer given m times counts m times towards the verdict. |
| `Das.RepeatedSampleDoesNotDecode` | src/das.rs:146-160 | k copies of one sample never decode for k ≥ 2: the verdict alone does not imply recoverability. |
| `VirtualDisk.VDiskManager.constructor` | src/vdisk.rs:102-111 | A new manager has no disks, devices or files. |
| `VirtualDisk.VDiskManager.CreateDisk` | src/vdisk.rs:114-120 | Refused exactly for a name in use; otherwise one disk more, and nothing else changes. |
| `VirtualDisk.VDiskManager.Attach` | src/vdisk.rs:123-149 | Refused exactly for an unknown disk; otherwise appends the attachment and opens a store only if the device has none. |
| `VirtualDisk.VDiskManager.Distribute` | src/vdisk.rs:239-249 | Shard after shard goes to device number index modulo device count, up to the first full device; what was stored stays. |
| `VirtualDisk.VDiskManager.StoreAndRegister` | src/vdisk.rs:230-272 | Encodes, commits, deals and registers, the entry and the registry exactly as specified, also when a device is full midway. |
| `VirtualDisk.VDiskManager.PutFile` | src/vdisk.rs:200-273 | Fails without a disk or devices, panics exactly when the tolerance is not below the number of devices, and otherwise stores and registers for all devices of the disk. |
| `VirtualDisk.VDiskManager.CollectShards` | src/vdisk.rs:282-293 | For every hash, in order, the shard from the first store that has it. |
| `VirtualDisk.VDiskManager.GetFile` | src/vdisk.rs:276-309 | Reads from whatever the stores hold, with the errors of missing files, missing shards and decoding. |
| `VirtualDisk.VDiskManager.RechunkFile` | src/vdisk.rs:384-432 | One file of a rechunk: read, encoded and dealt anew, and registered with a later stamp; skipped if it does not read. |
| `VirtualDisk.VDiskManager.RechunkAll` | src/vdisk.rs:367-435 | The files whose sizes differ, one after the other, with the counts, up to the first error. |
| `VirtualDisk.VDiskManager.Rechunk` | src/vdisk.rs:342-438 | Nothing below two devices; otherwise every file of the registry, for the sizes of this disk. |
| `VirtualDisk.VDiskManager.CopyChunk` | src/vdisk.rs:515-559 | From the first over-full holder to the first under-full device that lacks the chunk, if it has room. |
| `VirtualDisk.VDiskManager.Rebalance` | src/vdisk.rs:503-564 | The chunks of the live files in turn, with the number of copies made. |
| `DiskFacts.DealPlaces` | src/vdisk.rs:239-249 | If no device is full, shard i is stored under its hash on device i modulo the number of devices. |
| `DiskFacts.DealKeeps` | src/vdisk.rs:239-249 | Dealing, also when it stops midway, takes no chunk away and files every chunk under its own hash. |
| `DiskFacts.NextKeeps` | src/vdisk.rs:102-564 | Every operation, whatever its outcome, keeps every entry that of its file's encoding, every shard on the device it was dealt to and the sizes those its disk asks for, and takes no chunk, disk or attachment away. |
| `DiskFacts.RunsAreWellFormed` | src/vdisk.rs:102-564 | So this holds after every run. |
| `DiskFacts.ReadsIff` | src/vdisk.rs:276-309 | A live file reads as its data exactly if at least k of its shard positions are held by any stores, in any order of looking; with fewer it fails. |
| `DiskFacts.CopiesCounted` | src/vdisk.rs:503-564 | The number a rebalance returns is that of the (device, chunk) pairs it adds, each a chunk of the list that an over-full device holds, on an under-full device that lacked it; none goes. |
| `DiskRuns.AllRead` | src/vdisk.rs:276-309 | After every run each live file reads as the data it was made from. |
| `DiskRuns.PutWrites` | src/vdisk.rs:200-273 | A put that succeeds and supersedes is live with its data on all devices of its disk; any other put changes no file. |
| `DiskRuns.RewriteOneMoves` | src/vdisk.rs:384-432 | A live file is moved, data unchanged, to the rechunked disk's devices and sizes unless a device is full or its stamp is the largest; any other file stays. |
| `DiskRuns.RechunkMoves` | src/vdisk.rs:342-438 | A rechunk changes no data, also when it errors midway. Every outdated live file, of whichever disk, is on this disk's devices afterwards with its sizes, unless an error stopped the rechunk or its stamp is the largest; every other file stays as it is. |
| `DiskRuns.RewriteCounts` | src/vdisk.rs:380-437 | Every file is counted once, as rechunked or as skipped. |
| `DiskRuns.RunsRead` | src/vdisk.rs:102-564 | On every run of creating, attaching, putting, rechunking and rebalancing, with any outcomes, a name reads as what the last put that succeeded and superseded wrote under it, and fails if none did. |
| `DiskOutcomes.PutOutcome` | src/vdisk.rs:200-273 | A put that succeeds makes an entry stamped with the clock, with one copy per shard and the sizes of its disk. It is registered if what was registered is older, stays out if that is later, and at equal stamps needs the larger hash; a put that does not succeed registers nothing. |
| `DiskOutcomes.PutRefused` | src/vdisk.rs:207-235 | A put fails without the disk or its devices, and panics exactly if the disk has devices but is to tolerate as many failures or more. |
| `DiskOutcomes.PutSucceeds` | src/vdisk.rs:228-249 | A put succeeds if every device of its disk has room for all the shards. |
| `DiskOutcomes.LaterPutReads` | src/vdisk.rs:252-309 | After a put that succeeds at a clock later than what was registered the name reads as its data, at once and after any further operations but puts under that name. |
| `DiskOutcomes.EarlierPutIsIgnored` | src/store.rs:317-331 | A put at a clock earlier than what is registered does not change what the name reads as. |
| `DiskOutcomes.RechunkOutcome` | src/vdisk.rs:342-438 | A rechunk fails without the disk, does nothing below two devices, panics where more failures than devices are to be tolerated; if it goes through every live file has the sizes of the disk, unchanged if it had them before, otherwise with the disk's number of copies and a later stamp. |
| `DiskOutcomes.RewriteStamp` | src/vdisk.rs:404-412 | A rewritten file is stamped with the clock, or one later than before if that is later still. |
| `DiskOutcomes.RewriteCountsLive` | src/vdisk.rs:380-437 | A rechunk that goes through counts every outdated live file as rechunked and none as skipped. |
| `DiskBalance.RebalanceDelivers` | src/vdisk.rs:503-559 | After a rebalance every chunk of a live file that an over-full device held and an under-full one lacked is on the first such under-full device, unless that device has no room for it. |
| `DiskBalance.RebalanceCounts` | src/vdisk.rs:503-564 | Where no under-full device is short of room, a rebalance counts at least as many copies as there are different chunks to move. |
| `DiskBalance.RunsAreMetered` | src/store.rs:134-154 | On every run each device counts exactly the bytes of the chunks it holds, as a saturating counter shows them, and no more than its capacity. |
| `DiskLosses.SurvivorsHold` | src/vdisk.rs:282-301 | If only shards on lost devices are missing, at least as many positions are held as devices survive. |
| `DiskLosses.FileTolerates` | src/vdisk.rs:200-309 | A live file on different devices reads back after the loss of as many of them as its disk's redundancy promises, the full replication included. |
| `DiskLosses.RunsSurvive` | src/vdisk.rs:102-564 | On every run whose attach operations name different devices for each disk and whose disks all tolerate f failures, after the loss of any f device stores each name still reads as what was last written under it. |
| `DiskLosses.ToleranceIsLost` | src/vdisk.rs:333-380 | A concrete run of two disks: a file put on the one that tolerates a failure survives the loss of any device, and after a rechunk of the other one it does not survive the loss of a device of that other one. |
| `DiskTolerance.OneShardForAll` | src/erasure.rs:27-59 | With k = 1 all shards of an encoding are equal. |
| `DiskTolerance.ReadsAfterLossIff` | src/vdisk.rs:276-309 | After any loss a live file, on whatever devices, reads as its data if at most n − k of its shard positions were dealt to lost devices, and exactly then if its chunks are held only where they were dealt. |
| `DiskTolerance.SurvivesIff` | src/vdisk.rs:224-309 | A live file on m different devices survives the loss of any f device stores if f + min(f, n − m) ≤ n − k, and exactly then if its chunks are held only where they were dealt. |
| `DiskTolerance.PromiseIsEndured` | src/vdisk.rs:224-231 | This is at least what the redundancy promises, and no more where n = m. |
| `DiskTolerance.RechunkPairs` | src/vdisk.rs:382-395 | A rechunk leaves in the stores what was there and what rewriting the outdated live files deals, and nothing else. |
| `DiskTolerance.RechunkSurvival` | src/vdisk.rs:333-380 | After a rechunk a live file survives the loss of any f device stores exactly if, where the rechunk moves it, the new sizes endure that, and otherwise it did before; for chunks that are, and will be, only where they are dealt. The disk a file was put on has no say. |
| `VirtualDisk.Take` | src/vdisk.rs:102-564 | The manager after an operation is in the state the operation makes of the state before. |
| `VirtualDisk.Run` | src/vdisk.rs:102-564 | A manager is after any list of operations in the state they make; it reads each file as last written, and the same after the loss of any f devices where the disks have different devices and tolerate f. |
| `Permutations.AllPermutationsOnce` | src/settlement.rs:105-121 | The enumeration has n! entries, no two equal, and holds exactly the permutations of 0..n. |
| `Permutations.EnumerateFrom` | src/settlement.rs:108-118 | The swap recursion appends the completions of its prefix and restores the array. |
| `Permutations.Enumerate` | src/settlement.rs:105-121 | The recursive swapping produces that enumeration. |
| `Permutations.ShuffleInjective` | src/settlement.rs:126-150 | Different choice sequences give different orderings. |
| `Permutations.ShuffleSurjective` | src/settlement.rs:126-150 | Every ordering comes from some choice sequence, so the shuffle is a bijection from choices to orderings. |
| `Permutations.NextDraw` | src/settlement.rs:136-144 | The byte cursor stays inside the digest, re-hashing when it is used up, and reads the t-th word of the stream. |
| `Permutations.DrawShuffle` | src/settlement.rs:134-149 | The drawing loop performs the shuffle of the drawn choices. |
| `Drawing.DrawIsWord` | src/settlement.rs:136-144 | The t-th number drawn is the t-th eight bytes of h(seed), h(h(seed)) and so on, little-endian. |
| `Drawing.OrderingFromStream` | src/settlement.rs:126-150 | An ordering is 0 to n − 1 shuffled from the last position down; the choice for position i is word n − 1 − i of the stream from beacon and nonce, modulo i + 1. |
| `Drawing.EveryOrderingDrawn` | src/settlement.rs:126-150 | For every beacon, nonce and up to 2^32 contributors every ordering is drawn under some 32-byte digest function. |
| `Permutations.Ordering` | src/settlement.rs:126-150 | The ordering of a nonce: 0..n shuffled by the choices drawn from its digest stream; a permutation for every 32-byte digest function. |
| `Settlement.Marginals` | src/settlement.rs:70-81 | The loop returns each contributor's marginal value at its place in the ordering. |
| `Settlement.MarginalIsDifference` | src/settlement.rs:70-81 | The contributor at position p gets the value of the first p + 1 less that of the first p, where nobody is worth zero. |
| `Settlement.MarginalsAddUp` | src/settlement.rs:70-81 | In every ordering the marginals telescope to the value of everyone. |
| `Settlement.Accumulate` | src/settlement.rs:87-102 | The accumulation loops add the marginals of all listed orderings per contributor. |
| `Settlement.ShapleyNumerators` | src/settlement.rs:87-102 | The exact method's sums before division are the Shapley sums over all n! orderings and total n!·v(N) in the field. |
| `Settlement.LotteryNumerators` | src/settlement.rs:157-172 | The sums are those of the marginals of the orderings drawn for the nonces, and total m·v(N) in the field; zeros without contributions or samples. |
| `Settlement.Efficiency` | src/settlement.rs:87-102 | The Shapley sums of any value function add up to n!·v(N). |
| `Settlement.NullContributor` | src/settlement.rs:87-102 | A contributor that never changes the value gets zero. |
| `Settlement.Symmetry` | src/settlement.rs:87-102 | Interchangeable contributors get the same. |
| `Settlement.Equivariance` | src/settlement.rs:87-102 | Renaming the contributors by any permutation renames their sums. |
| `Settlement.Additivity` | src/settlement.rs:87-102 | The sums of a sum of games are the sums of the sums. |
| `Tickets.SelfFoldLoop` | src/tickets.rs:297-303 | The absorbing loop is the fold of the absorb step. |
| `Tickets.SelfFoldCounts` | src/tickets.rs:278-303 | A self-fold sees each sample id once, counts them, and sums the first-arrived marginals of each. |
| `Tickets.SelfFoldCommitment` | src/tickets.rs:292-303 | A self-fold of any tickets is committed to by its own contents. |
| `Tickets.FoldUnequal` | src/tickets.rs:306-352 | Of accumulators of different dimensions the sums of the one with more samples are kept, the left one if equal; all samples are seen and counted once. |
| `Tickets.FoldChecked` | src/tickets.rs:376-406 | Folds exactly when the sample sets are disjoint and otherwise names the size of the overlap. |
| `Tickets.GrindFold` | src/tickets.rs:473-499 | A win is a fold with a score below the target, at the first attempted nonce with one; exhaustion means no attempted nonce scores below it. |
| `Tickets.AssembleLevel` | src/tickets.rs:516-541 | One level of the pairwise loop, odd one out carried. |
| `Tickets.AssembleFoldTree` | src/tickets.rs:503-546 | The level loop ends in the fold tree's root. |
| `Tickets.MergeLevel` | src/ticket_proof.rs:185-199 | The prover's inner loop merges the same level. |
| `Tickets.ProveFoldTree` | src/ticket_proof.rs:162-207 | The prover returns the very root the plain assembly returns, and no root exactly for no leaves. |
| `Tickets.RootIsTotal` | src/tickets.rs:503-546 | For disjoint leaves of one dimension the root's seen set is the union, its count the size of it, its sums the pointwise sums. |
| `Tickets.RootCommitment` | src/tickets.rs:503-546 | With two leaves or more the root's commitment is the hash of the root's own contents. |
| `Tickets.RootIgnoresLeafOrder` | src/tickets.rs:503-546 | Any rearrangement of the leaves gives the same root, commitment included. |
| `Tickets.SelfFoldBalanced` | src/tickets.rs:278-303 | A self-fold of samples that each total v(N) totals count·v(N). |
| `Tickets.RootBalanced` | src/tickets.rs:503-546 | The root's sums add up to k·v(N) in the field when every leaf's do. |
| `Tickets.OverlapUnbalances` | src/tickets.rs:306-352 | Folding two balanced accumulators stays balanced exactly when their samples are disjoint or v(N) is zero. |
| `Tickets.FoldAcc` | src/tickets.rs:306-352 | The folding loop adds sums, joins sets and commits; on an overlap the sums are added all the same. |
| `Tickets.Sample` | src/tickets.rs:190-219 | The marginals of the ordering of this nonce; they total v(N) in the field. |
| `Tickets.GrindSettlement` | src/tickets.rs:222-255 | The first wanted tickets, in nonce order, of those attempted whose score is below the target; each carries the marginals of its nonce, its score, and totals v(N). |
| `Tickets.WinnersIff` | src/tickets.rs:222-255 | Every attempted nonce whose score is below the target gives a winning ticket, and no other does. |
| `Tickets.TicketIsOfNonce` | src/tickets.rs:190-219 | A ticket carries its nonce, the marginals of the ordering of that nonce, and their score. |
| `Tickets.MinersAreFair` | src/tickets.rs:222-255 | The batches that different miners grind have different sample ids, and every ticket totals v(N). |
| `Tickets.TicketsSettle` | src/tickets.rs:278-546 | For batches with ids disjoint between them and fair tickets: the root of the tree over their self-folds has seen exactly the ids, each once, its sums are those of the first ticket of each, and they total k·v(N). |
| `Partition.BallIsWithin` | src/partition.rs:55-79 | The ball of a radius is exactly the set of particles reached by a walk of at most that many hops. |
| `Partition.EpsilonSupport` | src/partition.rs:55-79 | The frontier search, its early stop included, returns that ball. |
| `Partition.Find` | src/partition.rs:96-101 | Returns the root and compresses the path without changing any root. |
| `Partition.Union` | src/partition.rs:102-107 | Merges exactly the two classes. |
| `Partition.UniteOverlaps` | src/partition.rs:109-115 | After all pairs, two indices share a root exactly when a chain of overlapping supports connects them. |
| `Partition.GroupByRoot` | src/partition.rs:117-121 | Groups every index under its root. |
| `Partition.SortGroups` | src/partition.rs:123-128 | Sorts members and groups by claim id. |
| `Partition.PartitionIntoClusters` | src/partition.rs:85-129 | The clusters are exactly the connected components of overlapping supports, each listed once, sorted. |
| `Partition.CanonicalUnique` | src/partition.rs:85-129 | There is only one canonical listing of a partition. |
| `Partition.ListingIgnoresOrder` | src/partition.rs:85-129 | For claims with different ids the listing, read as claim ids, is the same for every permutation of the claims. |
| `Partition.LargerRadiusCoarsens` | src/partition.rs:55-129 | Two claims together at one radius are together at every larger radius. |
| `Vdf.Evaluate` | src/vdf.rs:29-38 | The squaring loop returns start^(2^T) mod P, where a zero input starts from one. |
| `Vdf.Verify` | src/vdf.rs:55-60 | For T ≥ 1 accepts exactly the true output; at T = 0 exactly the start itself and, for start 0, also 1. |
| `Vdf.ExactIff` | src/vdf.rs:55-60 | Accepts exactly the true output exactly if T > 0 or the start is neither 0 nor at least P. |
| `Vdf.OwnProofAcceptedIff` | src/vdf.rs:55-60 | Accepts what `evaluate` returns exactly if T > 0 or the start is below P. |
| `Vdf.Composes` | src/vdf.rs:29-38 | a squarings followed by b squarings are a + b squarings. |
| `Vdf.Shortcut` | src/vdf.rs:115-131 | The output is the start to the power 2^T mod (P − 1). |
| `Vdf.OutputPeriod` | src/vdf.rs:146-156 | From T = 32 on the output repeats with period 32 in T. |
| `Vdf.ExponentPeriodIff` | src/vdf.rs:123-128 | Past T = 32 the exponents 2^T and 2^(T+d) agree modulo P − 1 exactly if 32 divides d. |
| `Vdf.OutputPeriodIff` | src/vdf.rs:123-128 | Past T = 32 the outputs of all inputs repeat after d squarings exactly if 32 divides d. |
| `Vdf.ThirtyTwoAnswers` | src/vdf.rs:123-128 | So every T ≥ 32 has the output of one of 32 exponents. |
| `Vdf.PowMod` | src/vdf.rs:158-172 | Square-and-multiply computes base^e mod m. |
| `Vdf.FastForward` | src/vdf.rs:129-144 | One exponentiation with the reduced exponent equals T sequential squarings. |
| `Finality.ComputeMean` | src/finality.rs:74-83 | The loop computes the mean; zero for an empty domain. |
| `Finality.ComputeVariance` | src/finality.rs:91-107 | The loop computes E[x²] − μ², floored at zero. |
| `Finality.VarianceIsSpread` | src/finality.rs:91-107 | In exact arithmetic the floor never binds: the variance is the mean squared distance from the mean. |
| `Finality.SquaredTest` | src/finality.rs:123-132 | For any σ ≥ 0 with σ² = var and κ' ≥ 0 the squared test is φ > μ + κ'σ. |
| `Finality.FewCross` | src/finality.rs:123-132 | In any non-empty domain fewer than |D| / (1 + κ'²) members cross the threshold. |
| `Finality.FewerThanHalfCross` | src/finality.rs:123-132 | With κ' ≥ 1 fewer than half cross. |
| `Finality.CertifiedIff` | src/finality.rs:141-146 | The gate passes exactly if the uncertified mass is below (1 − κ_D)·gap / (C·(1 + κ′)), where the denominator is positive. |
| `Finality.WithholdingBias` | src/tickets.rs:548-563 | Dropping any samples that are not above the mean, at most a share q < 1 of the pool, raises the mean by at least 0 and at most (mean − min)·q/(1 − q). |
| `Finality.BoundIsReached` | src/tickets.rs:548-563 | The bound is sharp: withholding exactly a share q, all of it least samples, raises the mean by exactly (mean − min)·q/(1 − q). |
| `Finality.ForfeitExceedsGain` | src/tickets.rs:565-573 | A forfeit that passes the deterrence test exceeds any such gain. |
| `Wire.EncodeLink` | src/wire.rs:180-187 | Appends one link's fields at their widths. |
| `Wire.EncodeClaimBody` | src/wire.rs:141-148 | Appends belief, prediction, count and links. |
| `Wire.EncodeAccBody` | src/wire.rs:211-223 | Appends the counter, the sums and the samples in any walk of the set, then the commitment. |
| `Wire.EncodeSettleMsg` | src/wire.rs:34-68 | The encoder produces the format for all three message types. |
| `Cursor.Read32` | src/wire.rs:252-259 | Reads 32 bytes and advances, or fails when they are not there. |
| `Cursor.ReadInt` | src/wire.rs:261-286 | Reads a little-endian integer of the given width and advances, or fails. |
| `Wire.DecodeLink` | src/wire.rs:189-209 | Advances over exactly one link. |
| `Wire.DecodeClaimBody` | src/wire.rs:150-178 | Advances over exactly one claim body. |
| `Wire.DecodeAccBody` | src/wire.rs:225-250 | Advances over exactly one accumulator body. |
| `Wire.DecodeSettleMsg` | src/wire.rs:71-111 | The offset-advancing decoder computes the format's parse, None on every malformed input. |
| `Wire.RoundTripIff` | src/wire.rs:34-111 | A message comes back from its encoding exactly when its counts fit 32 bits and a claim is announced under its own id and neuron, for every order of walking the sample set. |
| `Wire.DecodedIsCarried` | src/wire.rs:71-111 | Whatever bytes decode, the message is one the format can carry. |
| `Layouts.ClaimLayout` | src/wire.rs:34-68 | A claim announcement, byte by byte: header, type 1, topic, claim id, sender, belief, prediction, number of links, and the links of 121 bytes. |
| `Layouts.AccLayout` | src/wire.rs:34-68 | An accumulator announcement, byte by byte: header, type 2, topic, miner, counter, sums, samples in the walk's order, commitment. |
| `Layouts.ReceiptLayout` | src/wire.rs:34-68 | A receipt announcement, byte by byte: header, type 3, topic, receipt hash, epoch. |
| `Layouts.FrameLayout` | src/wire.rs:114-120 | A frame is four bytes of length, little-endian, and the body. |
| `Radio.SplitFrameBack` | src/wire.rs:114-131 | A framed body below 2^32 bytes is split off again, with the rest untouched. |
| `Radio.FramesLater` | src/radio_settle.rs:67-85 | Taking whole frames out before more bytes arrive gives the same frames and the same remainder. |
| `Radio.StreamBack` | src/radio_settle.rs:67-85 | The stream of any list of sendable messages reads as that list with nothing left over. |
| `Radio.RadioState.Ingest` | src/radio_settle.rs:87-97 | Takes a message exactly if its topic is subscribed and its content id is new. |
| `Radio.RadioState.Drain` | src/radio_settle.rs:77-82 | The inner loop ingests every whole frame and leaves the partial one. |
| `Radio.RadioState.HandleInbound` | src/radio_settle.rs:67-85 | After any chunks the inbox has grown by exactly the first-time messages of the bytes read. |
| `Radio.AnyCutting` | src/radio_settle.rs:67-85 | However the stream is cut into non-empty chunks, exactly the sent messages are read, in order. |
| `Radio.TakenOnce` | src/radio_settle.rs:87-97 | No content id enters the inbox twice. |
| `Radio.TakenCovers` | src/radio_settle.rs:87-97 | Every subscribed, unseen content id enters it. |
| `Radio.RadioState.Serve` | src/radio_settle.rs:61-97 | Several connections over one state: the inbox grows by exactly the first-time messages of the frames taken, in whatever order bytes arrive and frames are taken. |
| `Radio.ConnectionFrames` | src/radio_settle.rs:67-85 | On each connection the frames taken and those still whole in its buffer are the frames of the bytes that arrived on it, whatever happened on the others. |
| `Radio.ContentIdBinds` | src/gossip.rs:58-83 | Where the hash does not collide on them, two announcements with one content id are of the same kind, topic and content. |
| `Radio.ServeAll` | src/radio_settle.rs:61-97 | Any number of connections, any cutting and any interleaving: each content id enters once over the whole run, none is missed, and nothing enters that was not sent. |
| `Radio.ReceiveAll` | src/radio_settle.rs:67-97 | Both together, for a fresh node and any cutting of the stream. |
| `Frames.SerializeSignal` | src/frames.rs:132-170 | The serializer produces the three sections. |
| `Layouts.SignalLayout` | src/frames.rs:132-170 | A signal payload, byte by byte: neuron, step, previous hash, height, links of 145 bytes, box moves of 33 or 73, payments of 40. |
| `Frames.DeserializeSignal` | src/frames.rs:177-239 | The cursor loops compute the payload's parse, None on every malformed payload. |
| `Frames.RoundTripIff` | src/frames.rs:132-239 | A signal comes back, with its network reset and its proof dropped and everything else intact, exactly when its three counts fit 32 bits. |
| `Frames.FirstPayloadsStillRead` | src/frames.rs:203-228 | A payload that ends after the links reads with no box moves and no payments. |
| `Frames.SecondPayloadsStillRead` | src/frames.rs:219-228 | A payload that ends after the box moves reads with no payments. |
| `Registry.GSet.LwwInsert` | src/store.rs:317-331 | Replaces an entry exactly if the new one is later, or equally late with the larger hash. |
| `Registry.GSet.Merge` | src/store.rs:310-314 | In whatever order the other map is walked, the result per name is the other entry exactly where it supersedes. |
| `Registry.GSet.Delta` | src/store.rs:398-406 | Exactly the entries later than the given time. |
| `Registry.GSet.MerkleRoot` | src/store.rs:337-348 | The root is that of the sorted hashes, whatever the map order. |
| `Registry.RunKeepsNewest` | src/store.rs:310-331 | After any run of inserts, merges and delta merges over any number of replicas, each replica holds, for exactly the names in its causal history, an entry of it that no other supersedes. |
| `Registry.LatestIsKept` | src/store.rs:317-331 | Per name heard of, each replica holds an entry with the latest timestamp heard of, and among those with the largest hash. |
| `Registry.Convergence` | src/store.rs:310-348 | Replicas of any two runs with equal histories agree on every name's (timestamp, hash) and on the Merkle root. |
| `Registry.RootsAgree` | src/store.rs:337-348 | Registries with the same stamps have the same root. |
| `Registry.RootIsOfRising` | src/store.rs:337-348 | The root of a registry that is not empty is the hash of its entry hashes in rising order. |
| `Registry.RootBindsHashes` | src/store.rs:337-348 | Without a collision on the two lists, equal roots mean equal bags of entry hashes. |
| `Registry.MergeAssociative` | src/store.rs:259-263 | Merging is associative on whole entries. |
| `Registry.MergeIdempotent` | src/store.rs:259-263 | Merging a set with itself changes nothing. |
| `Registry.MergeCommutesOnStamps` | src/store.rs:259-263 | Merging commutes on (timestamp, hash). |
| `Registry.MergeCommutesIff` | src/store.rs:259-263 | It commutes on whole entries exactly when entries with equal stamps are equal. |
| `Registry.DeltaSufficesIff` | src/store.rs:398-406 | Merging the delta since t equals merging everything exactly when the receiver already has, or beats, every entry up to t. |
| `Reconcile.ConflictIndex.Observe` | src/conflict.rs:92-103 | Files the signal under each key and returns exactly the keys now in conflict. |
| `Reconcile.ResolveMinHash` | src/fork.rs:94-108 | The first member of least content id; an error exactly for no members. |
| `Reconcile.Resolve` | src/fork.rs:75-109 | Both strategies: serialize errs exactly on a genuine conflict. |
| `Reconcile.Reconciler.ResolveKey` | src/reconcile.rs:68-79 | The least id that claimed the key; an error exactly for an unclaimed key, or a conflict under serialize. |
| `Reconcile.Reconciler.Observe` | src/reconcile.rs:49-56 | Reports the winner of every conflict the signal created or joined. |
| `Reconcile.Reconciler.ResolveAll` | src/reconcile.rs:60-66 | The winners of exactly the keys in conflict, in key order. |
| `Reconcile.OrderAndRepetitionDoNotMatter` | src/reconcile.rs:49-79 | Claimed keys, member ids and the batch result depend only on which signals were observed. |
| `Reconcile.GroupsGrow` | src/conflict.rs:72-103 | Groups never shrink, a conflict stays one, and a winner is replaced only by a lower id. |
| `Reconcile.IncrementalAgreesWithBatch` | src/reconcile.rs:49-66 | The last incremental report on every key is the batch result for it, and there is one exactly for the keys in conflict. |
| `Reconcile.ReportedIff` | src/reconcile.rs:49-66 | A report on a key stands at the end exactly if signals with two contents claimed it, and it names the least content id. |
| `Reconcile.ObserveAll` | src/reconcile.rs:49-66 | A whole run of the engine yields that log and that batch. |
| `Reconcile.AllLinks` | src/conflict.rs:128-139 | The walk over the groups returns the links of the signals whose content id has not come before. |
| `Reconcile.LinksCountedOnce` | src/conflict.rs:128-139 | Those signals cover every indexed content id, each exactly once. |
| `Allocation.AllocateBudget` | src/rewards.rs:449-494 | Refuses exactly when all weights are zero; otherwise floor shares, and the remainder to the last claimant if it has weight, else to the first that has. |
| `Allocation.PaysTheBudget` | src/rewards.rs:449-494 | The amounts add up to exactly the budget. |
| `Allocation.SharesAreFair` | src/rewards.rs:449-494 | Zero weight gets zero, and every amount lies between its floor share and that plus (positive weights − 1). |
| `Allocation.RemainderGoesTo` | src/rewards.rs:466-491 | All but one get exactly the floor share; what is left goes to the last claimant if it has weight, else to the first that has. |
| `Allocation.AllocationUnique` | src/rewards.rs:449-494 | Equal weights and budget give equal amounts. |
| `Allocation.Slack` | src/rewards.rs:466-481 | The floor shares leave less than one unit per positive weight. |
| `Allocation.CapacityWeightedPlacement` | src/node.rs:676-708 | Exactly n shards are placed, each device within one of its floor share, the extra ones on the largest capacities. |
| `Nmt.RootBounds` | src/nmt.rs:135-166 | A non-empty root's bounds are the least and the greatest namespace of its leaves. |
| `Nmt.RootsOfFew` | src/nmt.rs:130-166 | The roots of no, one, two and three leaves, spelled out. |
| `Nmt.SameHashSameLeaves` | src/nmt.rs:130-166 | Sorted trees with equal hashes and one equal bound have the same leaves. |
| `Nmt.RootBinds` | src/nmt.rs:37-41 | Without a collision on the hashed texts, two leaf lists have the same root exactly when they hold the same leaves. |
| `Nmt.HashAloneDoesNotBind` | src/nmt.rs:130-133 | For every hash function two different leaves share a root hash; only the bounds tell them apart. |
| `Nmt.Verify` | src/nmt.rs:77-98 | The light check: root, namespace of every leaf, sorted order. |
| `Nmt.VerifyFull` | src/nmt.rs:101-126 | Accepts exactly the proofs that carry the root of the shown leaves and all their leaves of the namespace. |
| `Nmt.ProveIsAccepted` | src/nmt.rs:44-62 | Every produced proof passes both checks. |
| `Nmt.FullVerificationIsComplete` | src/nmt.rs:101-126 | If the shown leaves have the trusted root, an accepted proof holds every leaf of the namespace as often as the true list does, and no others. |
| `Nmt.OmissionPassesTheLightCheck` | src/nmt.rs:73-76 | Any single leaf can be left out of a proof without the light check noticing; the full check refuses it. |
| `Nmt.LightCheckIgnoresTheTree` | src/nmt.rs:77-98 | Every sorted list of leaves of the namespace passes the light check under every trusted root, whether or not the leaves are in the tree. |
| `Nmt.LightCheckNeverProvesCompleteness` | src/nmt.rs:73-98 | For every tree and namespace the light check accepts some proof whose leaves are not those of the namespace. |
| `Live.EpochRunner.constructor` | src/epoch.rs:60-76 | A new epoch has no claims, root, beacon or receipt. |
| `Live.EpochRunner.ProposeClaim` | src/epoch.rs:100-106 | Adds a claim in the propose phase and only then. |
| `Live.EpochRunner.Freeze` | src/epoch.rs:109-121 | Freezes a non-empty list with its root; a refusal changes nothing. |
| `Live.EpochRunner.OpenBeacon` | src/epoch.rs:124-143 | Computes the beacon over the frozen root and opens exactly if it verifies; a refusal changes nothing. |
| `Live.EpochRunner.SettleWithPeers` | src/epoch.rs:163-249 | Succeeds exactly in the right phase with a budget, a beacon that verifies, and work that has weight and is proved; the receipt pays the budget in full. |
| `Live.EpochRunner.NextEpoch` | src/epoch.rs:270-276 | Follows exactly a settled epoch, with its beacon, and starts without claims. |
| `LiveRuns.ReceiptPays` | src/epoch.rs:222-245 | The receipt of an epoch splits its budget by the weights and pays it in full. |
| `LiveRuns.ShareWithinBudget` | src/rewards.rs:571-578 | No neuron's share of a receipt exceeds the receipt's budget. |
| `Live.LiveNode.constructor` | src/live.rs:82-113 | A new node is at height 0 in epoch 1, with a trusted tip unless it is light, without signals, rewards or receipts. |
| `Live.LiveNode.MatureRewards` | src/live.rs:423-436 | Moves exactly the due entries to the balance, which saturates, and keeps the rest. |
| `Live.LiveNode.CreditReceipt` | src/live.rs:293-302 | Counts a receipt once, by hash, and adds the node's share pending from the mint height. |
| `Live.LiveNode.BumpTip` | src/live.rs:399-421 | Raises the height by one if the fold succeeds, and matures; changes nothing otherwise. |
| `Live.LiveNode.IngestSignal` | src/live.rs:154-172 | A known id changes nothing; a new one is claimed only in the propose phase, and kept also when the fold fails; light nodes refuse. |
| `Live.LiveNode.FreezeAndBeacon` | src/live.rs:383-397 | Freezes and opens as far as the phase requires; an epoch without claims is refused. |
| `Live.LiveNode.CloseAndSettleEpoch` | src/live.rs:211-291 | The whole new state and result, refusals at every step included: how far the epoch came, and what was credited. |
| `Live.LiveNode.AcceptEpochCert` | src/live.rs:305-343 | A refused certificate changes nothing; an accepted one credits its receipt unless already credited, becomes the last one and matures what is due; a light node takes its tip. |
| `Live.LiveNode.LightJoin` | src/live.rs:131-140 | A light node takes a trusted tip; everything else is refused. |
| `Live.LiveNode.LightAdvance` | src/live.rs:143-151 | A light node whose tip was decided by folding advances to no lower a height, if the tip folds it. |
| `Seals.TicketProver.FoldMaterial` | src/ticket_proof.rs:88-97 | Folds one material in and counts it, or changes nothing. |
| `Seals.TicketProver.MakeSeal` | src/ticket_proof.rs:100-122 | Decides and verifies; no seal without a step. |
| `Seals.ProveBatch` | src/ticket_proof.rs:143-157 | The seal over all the materials in order, or nothing if there are none or a step is refused. |
| `Seals.ProvedHolds` | src/ticket_proof.rs:136-157 | With a proof system that counts its steps every seal made over fewer than 2^64 materials verifies. |
| `Seals.HoldsIff` | src/ticket_proof.rs:134-139 | A seal over folded materials verifies exactly if its proof does and it counts those materials, at least one. |
| `Live.VerifyBeacon` | src/beacon.rs:116-133 | Accepts exactly the beacons whose delay proof verifies, starts from their own fields and gives their value. |
| `Live.VerifyReceipt` | src/rewards.rs:548-567 | Accepts exactly the receipts with their own hash, a beacon that verifies and seals that verify. |
| `Live.VerifyEpochCert` | src/epoch_cert.rs:120-185 | Accepts exactly the certificates with their own hash, a trusted tip, a verifying beacon, a verifying receipt of the same epoch and, given the claims, the impulse of their links. |
| `LiveRuns.OwnBeaconHoldsIff` | src/beacon.rs:90-133 | A beacon just computed verifies exactly if there was a squaring or its challenge is below P. |
| `LiveRuns.OwnReceiptHolds` | src/rewards.rs:548-567 | A receipt just made verifies. |
| `LiveRuns.OwnCertHolds` | src/epoch_cert.rs:86-185 | A certificate just issued by a node with a trusted tip verifies, with the claims of the epoch or without. |
| `LiveChecks.ReceiptFields` | src/epoch.rs:232-245 | Every field of a receipt that settling makes: epoch, beacon, claims root, hash, impulse, budget, neurons, and seals over the right statements and numbers of steps. |
| `LiveChecks.ReceiptsBind` | src/rewards.rs:548-567 | Two accepted receipts with one hash are of the same epoch and beacon and give every neuron the same, where the hash does not collide on them. |
| `LiveChecks.CertsBind` | src/epoch_cert.rs:60-185 | Two accepted certificates with one hash agree in epoch, tip, claims root, beacon and settlement, where the hashes do not collide on them. |
| `LiveChecks.ChangedSharesRefused` | src/epoch_cert.rs:120-185 | A certificate in whose receipt a neuron's amount was changed is refused. |
| `LiveChecks.AcceptedIsCoherent` | src/epoch_cert.rs:120-185 | An accepted certificate has a trusted tip; its beacon and receipt are of its epoch and claims, its receipt has the hash of its contents and, given the claims, their impulse. |
| `LiveChecks.LastIsCoherent` | src/live.rs:211-343 | On every run the last certificate is of this kind, whether issued or accepted. |
| `LiveChecks.BeaconsAgree` | src/beacon.rs:116-133 | Two accepted beacons over the same fields after the same number of squarings, at least one, are the same. |
| `LiveChecks.BeaconsBind` | src/beacon.rs:116-133 | Two accepted beacons with one value are over the same fields and the same output, where the digest does not collide on them. |
| `LiveChecks.BeaconsDelayed` | src/live.rs:215-216 | Every beacon of a run was delayed by 32 squarings. |
| `LiveChecks.CreditedHold` | src/live.rs:293-302 | Every receipt credited on a run has the hash of its own contents, its beacon and its seals. |
| `LiveChecks.SettlementsOnce` | src/live.rs:293-302 | No settlement is credited twice, under whatever hashes and in whatever order of its shares. |
| `LiveChecks.NoneSuppressed` | src/live.rs:293-302 | Every receipt presented has its settlement in the log, where the hash of receipts does not collide. |
| `LiveChecks.ShareIsFirst` | src/rewards.rs:571-578 | A neuron's amount is that of its first entry; without an entry there is none. |
| `LiveChecks.LightTips` | src/live.rs:131-151 | A light node's tip is one it joined, that of an accepted certificate unless lower and not decided by folding, or an advance of a tip decided by folding. |
| `LiveChecks.FullTips` | src/live.rs:399-421 | A full or cell node's tip changes only with a new signal whose height folds, by one, to the root of the height and the number of signals. |
| `LiveChecks.NothingDueIsLeft` | src/live.rs:423-436 | After an event that matures nothing due is left pending. |
| `LiveRuns.TipsTrusted` | src/live.rs:82-113 | On every run the tip of a full or cell node is trusted. |
| `LiveRuns.CloseOutcome` | src/live.rs:211-291 | Closing an open epoch succeeds exactly if there are claims, a budget, and work that has weight and is proved. If it fails nothing is credited and the epoch stays open, its claims frozen under an open beacon. |
| `LiveChecks.ClosedCert` | src/live.rs:211-291 | Every field of the certificate of an epoch that closes, and the epoch, prior beacon and budget that follow it. |
| `LiveRuns.NeverStuck` | src/live.rs:211-291 | On every run the epoch is proposing or under an open beacon, so it is never left settled. |
| `LiveRuns.IssuedIsAccepted` | src/live.rs:305-343 | A certificate that a node issues is accepted, and its receipt credited, by every node with the same functions, with the claims or without. |
| `LiveRuns.SoloRunPays` | src/live.rs:211-436 | A neuron alone in its epoch, with work that is proved, gets the whole budget, spendable two heights after the close. |
| `LiveRuns.StuckIff` | src/live.rs:211-291 | For any proof system whatever: an epoch is stuck exactly if the node's own receipt or certificate failed its check. |
| `LiveRuns.StuckForever` | src/live.rs:211-291 | An epoch in the settled phase, if there is one, stays as it is, and every later attempt to close it fails. |
| `LiveRuns.KeptAndRipe` | src/live.rs:423-436 | A pending entry is ripe exactly if the height has reached its mint height plus the depth, and kept otherwise. |
| `LiveRuns.RewardsConserved` | src/live.rs:154-436 | On every run the pending amounts and the payments made add up to the node's shares of the receipts credited, and the balance is what was paid, up to the largest number. |
| `LiveRuns.EachEntryOnce` | src/live.rs:293-302 | Every reward entry is pending or paid, and only once. |
| `LiveRuns.PaidWhenDue` | src/live.rs:423-436 | Every payment came at the mint height plus the depth or later. |
| `LiveRuns.CreditedIff` | src/live.rs:293-343 | A receipt hash is credited exactly if some closing or accepted certificate presented a receipt with it. |
| `LiveRuns.LoggedIff` | src/live.rs:293-302 | A receipt is credited exactly if an event presented it when none with its hash had been credited. |
| `LiveRuns.CreditedOnce` | src/live.rs:293-302 | The receipts credited have different hashes. |
| `LiveRuns.ClaimedOnce` | src/live.rs:154-172 | The ids claimed, by the events, are those of the closed epochs and of the current one, in order, and no id comes twice. |
| `LiveRuns.FrozenStays` | src/epoch.rs:100-121 | Frozen claims and their root stay until the epoch is closed with success. |
| `LiveRuns.EpochsSound` | src/epoch.rs:60-276 | After every run a frozen root is that of the claims, the beacon carries it, and a receipt carries it and pays its budget. |
| `Live.Take` | src/live.rs:131-436 | The node after an event is in the state the event makes of the state before. |
| `Live.Run` | src/live.rs:82-436 | A node is after any list of events in the state they make. Below saturation its balance and pending amounts are its shares of the receipts credited, by different hashes; payments came when due; no id is claimed in two epochs; a frozen root is that of the claims; no epoch is stuck. |

## Left out

- Erasure.Encode: transform sizes are powers of two up to 2^32, the sizes the field has roots of unity for; larger n is not part of this model.
- Transform.Ntt: the butterfly algorithm of the external field library is not modelled, only the evaluations it computes.
- Settlement.ShapleyNumerators: stops before the division by n!, whose rounding belongs to the external fixed-point type; the sums are exact modulo P.
- Tickets.RootIsTotal: leaves are disjoint and of equal dimension; the overlapping fold has its exact condition in `Tickets.OverlapUnbalances`, the mismatched dimension is not part of this model.
- VirtualDisk.VDiskManager.Rebalance: the floating-point choice of which device is over or under its target is arbitrary, so nothing is said about how even the result is.
- VirtualDisk.VDiskManager.Rechunk: a tolerance above the number of devices panics, as in a build with overflow checks.
- DiskRuns.RunsRead: at most 2^32 attachments, the most points the field has for shards; merging a foreign registry is not an operation of the run, since its entries may have no local shards.
- DiskLosses.RunsSurvive: for disks with a number of tolerated failures; a disk with full replication promises as many as its file has devices less one, which `DiskLosses.FileTolerates` states per file.
- DiskTolerance.SurvivesIff: the exact number is for chunks held only where they were dealt; repeated shards and copies made by a rebalance let a file survive more, and `DiskFacts.ReadsIff` says of each state what it reads.
- DiskTolerance.RechunkSurvival: a rewrite of an entry whose timestamp is the 64-bit maximum may lose the tie against it, so those are excluded.
- Drawing.EveryOrderingDrawn: for more than 2^32 contributors the digests may have to repeat themselves, and then not every ordering is drawn.
- Das.VerifiesIff: the digests are taken to be 32 bytes, as the library's hash gives them.
- Finality.ComputeVariance: fixed-point rounding and wrap-around, which the floor at zero exists for, are not modelled.
- Allocation.AllocateBudget: starts from the weights; the external conservation clip that produces them is any list of weights.
- Radio.ReceiveAll: messages whose encoding is below 2^32 bytes, the length a frame can carry.
- Registry.Convergence: validation of untrusted entries, the registry size limit and compaction of tombstones are left out; convergence is on (timestamp, hash).
- Reconcile.Reconciler.ResolveAll: the two strategies that do not read the graph; the one that ranks by focus is external.
- Live.Run: whether the tip prover folds and what the settlement work comes to are inputs; a light node's tip may go down, so no monotony is claimed for it.
- Live.LiveNode.IngestSignal: the links of a signal are one value, and its delay proof is not carried; the root over those proofs is an input of opening.
- The focus computation, its impulse values and the fixed-point type are external.
- The inside of the folding proof system is left out, as are the certificates of single tickets and of payments that only wrap it.
- Intent frames and chunk requests are fixed-layout payloads next to the signal payload, and the tape reader that cuts frames out of a stream is external; the payload theorems begin where a frame has been cut.
- Garbage collection, deletion, audits, disk files, the daemon, the command line and printing are input and output.
- Banded targets, the minimum sample count and the confidence estimate are floating-point or logarithm calculations.
- Signal chains check one hash link and step per append, and the in-process mesh hands each message to its subscribers once; no theorem here assumes that signals come from a chain or through the mesh.
