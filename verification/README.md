# Oryx: translator, runtime and stores, modelled and proved in Dafny

Oryx translates x86-64 basic blocks to AArch64 and runs them. This project models its hard core and
proves, for all inputs, all runs and all reachable states:

- **Memory ordering** (`Graphs`, `MemoryModel`, `Ordering`, `OrderingTheorems`, `EmittedOrdering`,
  `LitmusShapes`). Candidate executions with program order, reads-from, coherence and from-reads; the
  ordered-before relation of section B2.3 of the Arm Architecture Reference Manual (DDI 0487) on the host
  side, x86-TSO and sequential consistency on the guest side. The theorems are about the labels of the
  words the translator emits, for any number of threads and operations, and for every choice of
  dependency edges.
- **The compiler** (`GuestIr`, `A64`, `Encode`, `Translate`, `Link`, `Simulation`, `AtomicFlags`,
  `BlockCorrect`). The IR and the emitted A64 subset each have a semantics; every word is decoded back from
  its bits; translate, link and run equals the meaning of the block, through the exit stubs.
- **The dispatcher** (`CodeCache`, `Dispatch`). The linear-probing code cache as a class over an array, and
  the caching, flushing loop proved equal to one that caches nothing.
- **The decoder and the whole pipeline** (`X86`, `Decoder`, `DecoderErrors`, `BlockDecoder`, `Pipeline`). x86-64
  instructions with every encoding the architecture leaves open, an independent reference interpreter, and
  the proof that decode, translate, link and dispatch compute what the interpreter computes.
- **The litmus tool** (`LitmusMachine`, `LitmusGate`, `LitmusTests`, `LitmusVerdicts`, `LitmusSb`,
  `LitmusEnds`). Main and its workers on a store-buffer machine, over every schedule and any number of
  iterations.
- **The TSO grant driver** (`Grant`), statement by statement under arbitrary context switches.
- **Hashing, formats, maps, store and keys** (`ShaConstants`, `Sha256`, `Layout`, `TuFormat`, `MapFormat`,
  `MemoryClassMap`, `Store`, `CodegenKey`).

Code that updates buffers, tables and contexts is modelled by methods over arrays, classes and loops, proved
against functions; the multi-threaded parts are state machines over their statements, with every
interleaving as a run. Machine integers are subset types of `int` with wrap-around written out (`Words`); only
the words of SHA-256 are bit-vectors. `dafny verify dfyconfig.toml` checks everything.

## Premises

- Guest memory is disjoint from the code cache and the register file, fetching is a function of the pc,
  and the trampoline loads x0..x15, sets x17 to the halt sentinel, runs the block and stores back;
  everything else in the host (x16, x18..x30, flags) is arbitrary and may differ at every block.
- Branch and SETcc condition codes are in range (`CondInRange`).
- Memory-ordering theorems assume aligned, same-size accesses and no LOCK-prefixed operations.
- The store theorems assume that the hash does not collide on the byte strings of the run at hand.
- An image is shorter than 2^63 bytes, and a block handed to the map classifier has fewer than 2^32
  operations, as any C object of that type has.

## Where the code and its documentation differ

- `SUB_RI` with immediate -2^63 is negated to itself, and the overflow flag is then wrong in every state
  (`Simulation.SubtractingMinNeverSimulates`); block correctness holds for every other immediate. The
  decoder never produces it.
- The lowered LOCK ADD and LOCK CMPXCHG leave the flags alone, where the x86 instructions set them. A block
  that reads no flags between an atomic and the next setter is correct (`BlockCorrect.BlockCorrect`); an
  atomic itself agrees exactly when the flags were already right (`Simulation.AtomicFlagsExactly`), and a
  final branch on stale flags exactly when it decides the same on them
  (`BlockCorrect.StaleBlockExactly`). The compare-and-swap loop fails (`BlockCorrect.CasLoopFails`). The
  decoder produces no atomics.
- `PUSH RSP` and `POP RSP` decode to IR that differs from the Intel definition in every state, and they are
  the only instructions that do (`Pipeline.IrMeansExactly`).
- A conditional jump in a block that does not set flags itself reads the host's flags. A block agrees with
  the interpreter on every host and for every guest flags exactly when it has no such jump, one to the
  next instruction apart (`Pipeline.AgreesExactly`); `Pipeline.ProgramThroughPipeline` is about programs
  of such blocks.
- A comment calls `DMB ISHST` read-and-write-to-write order. It orders writes only, as modelled here; reads
  are ordered before later writes by the `DMB ISHLD` behind each ordered load.
- The decoder's header promises a format error for a truncated stream; an `endbr64` cut off by the end of
  the image is reported as unsupported. It is the only such case (`Decoder.TruncatedExactly` for an
  instruction, `BlockDecoder.TruncatedImage` for an image).
- A block padded with `endbr64` to 2^32 bytes or more gets a truncated length (`BlockDecoder.FetchedExactly`).
- The translator's header says two translations share a content address if and only if they produce the
  same host bytes. Equal preimages do imply equal code, but relocations and exits need more
  (`CodegenKey.KeyCoversRestExactly`, `CodegenKey.FarJumpsShareAKey`), and equal code does not imply equal
  preimages (`CodegenKey.MovedBlocksDiffer`).
- A disable that is switched out between clearing its flag and clearing the bit leaves the bit set for the
  next thread (`Grant.SwitchedOutDisableLeaks`); that is exactly when it happens (`Grant.CleanExactly`).
- The cache's header says a tampered entry can never be executed. Unit retrieval has no identity check, so
  an index entry redirected to another unit's intact blob is served under a key that is not that unit's
  (`Store.RedirectedUnitIsServed`), and that is the only way it fails (`Store.GetTuExactly`); map retrieval
  has a check (`Store.MapIsGenuine`). Putting data again does not repair a damaged blob
  (`Store.PutRepairsExactly`).

## Model

| member | source | states |
|---|---|---|
| `OrderingTheorems.DrfSound` | src/liboryxtu/oryxtu.c:204-254 | if every plainly lowered access is to memory of its own thread, every Arm-consistent execution of the lowered code is x86-TSO-consistent for the whole guest program, at each strength |
| `EmittedOrdering.EmittedCodeIsTso` | src/liboryxtu/oryxtu.c:204-266 | the same for the words the translator emits, decoded from their bits; the guest program (fence kinds, ordered and stack accesses) is read off the IR fields and the policy, not off the lowering |
| `EmittedOrdering.ConservativeIsTso` | src/liboryxtu/oryxtu.c:208-209 | under the conservative policy only the stacks need be private, whatever the classes say |
| `EmittedOrdering.EmittedExactlyTso` | src/liboryxtu/oryxtu.c:217-252 | for the emitted words: RCPC and the DMB scheme admit an execution if and only if x86-TSO does |
| `EmittedOrdering.EmittedExactlySc` | src/liboryxtu/oryxtu.c:217-252 | for the emitted words, with every access ordered: the SC strength admits it if and only if it is sequentially consistent |
| `OrderingTheorems.ExactlyTso` | src/liboryxtu/oryxtu.h:101-120 | RCPC and the DMB scheme admit an execution if and only if x86-TSO does |
| `OrderingTheorems.ExactlySc` | src/liboryxtu/oryxtu.h:101-120 | with all accesses ordered, the SC strength admits an execution if and only if it is sequentially consistent |
| `OrderingTheorems.TsoAdmitted` | src/liboryxtu/oryxtu.c:217-252 | RCPC and the DMB scheme never forbid what TSO allows, whatever is ordered or private |
| `EmittedOrdering.AdmittedExactlyTso` | src/liboryxtu/oryxtu.h:101-120 | as sets: a guest execution has an Arm-consistent counterpart exactly when TSO allows it |
| `EmittedOrdering.AdmittedExactlySc` | src/liboryxtu/oryxtu.h:101-120 | the same for SC |
| `EmittedOrdering.LoweredLabels` | src/liboryxtu/oryxtu.c:204-266 | the memory accesses and barriers of an operation's code are those its guest meaning calls for at that strength, in that order |
| `EmittedOrdering.EmittedIsHost` | src/liboryxtu/oryxtu.c:187-363 | the labels decoded from the emitted words of every thread are the host program of the ordering theorems |
| `Ordering.TsoOrderUp` | src/liboryxtu/oryxtu.c:217-252 | any two ordered accesses that TSO orders are barrier-ordered on the host |
| `MemoryModel.TsoOrderTrans` | src/liboryxtu/oryxtu.h:101-120 | TSO's order within a thread is transitive, the fact cycle contraction rests on |
| `LitmusShapes.MpForbidden` | src/liboryxtu/oryxtu.h:101-120 | message passing is forbidden at every strength |
| `LitmusShapes.WrcForbidden` | src/liboryxtu/oryxtu.h:101-120 | write-to-read causality is forbidden at every strength |
| `LitmusShapes.SbAllowed` | src/liboryxtu/oryxtu.h:101-120 | store buffering stays visible under RCPC and the DMB scheme |
| `LitmusShapes.SbForbiddenBySc` | src/liboryxtu/oryxtu.h:101-120 | and is forbidden under SC |
| `LitmusShapes.FencedSbForbidden` | src/liboryxtu/oryxtu.c:50-55 | store buffering across an MFENCE is forbidden for the emitted code at every strength, policy and class |
| `LitmusShapes.RacingPlainAccessesBreakTso` | src/liboryxtu/oryxtu.c:204-216 | two threads passing a message through LOCAL-class accesses: an execution TSO forbids is admitted at every strength, so privacy is needed |
| `Encode.DecodeWord` | src/liboryxtu/oryxtu.c:16-59 | every word the encoders produce decodes, field by field, to the instruction it was meant to be |
| `Encode.DisassembleCode` | src/liboryxtu/oryxtu.c:82-96 | a code buffer disassembles to the instructions it was assembled from |
| `Translate.LoweredEncodable` | src/liboryxtu/oryxtu.c:187-363 | no accepted immediate, offset or register overflows its field |
| `Translate.EmitWords` | src/liboryxtu/oryxtu.c:82-96 | appends exactly the little-endian bytes of the words |
| `Translate.TranslateLoop` | src/liboryxtu/oryxtu.c:180-384 | for any lowering: the loop accepts exactly the blocks of 1 to 2^20 operations it lowers whose last one and no other is a terminator, and returns their code, relocation and exits |
| `Translate.TranslateEx` | src/liboryxtu/oryxtu.c:141-394 | the same with the source's lowering; which blocks that accepts is said from the IR fields alone, and all others are invalid |
| `Translate.LowersExactly` | src/liboryxtu/oryxtu.c:187-363 | an operation is lowered exactly when its registers are 0 to 15, its opcode is known and a load's or store's displacement is 0 to 32760 in steps of 8, or 0 to 4095 where an ADD carries it |
| `Translate.AcceptsExactly` | src/liboryxtu/oryxtu.c:180-384 | the accepted blocks in those terms |
| `Translate.UnitOf` | src/liboryxtu/oryxtu.c:366-384 | the code length of an accepted block fits 32 bits, so narrowing loses nothing |
| `Simulation.MovImmLoads` | src/liboryxtu/oryxtu.c:98-108 | MOVZ and the MOVKs of non-zero lanes load every 64-bit constant |
| `Simulation.CondAgrees` | src/liboryxtu/oryxtu.c:65-77 | the AArch64 condition holds of the host flags exactly when the x86 one holds of the guest flags |
| `Simulation.StepSimulates` | src/liboryxtu/oryxtu.c:187-342 | every non-terminator but the atomics, in every immediate range, policy and strength, takes registers, memory and N, Z, V to what the IR says |
| `Simulation.AtomicFlagsExactly` | src/liboryxtu/oryxtu.c:255-262 | an atomic takes registers and memory there, and the flags too exactly when they already were those of the x86 instruction |
| `AtomicFlags.KeptBlock` | src/liboryxtu/oryxtu.c:36-38 | leaving the flags alone at atomics does not change a block that reads none between an atomic and the next setter |
| `Simulation.SubtractingMinNeverSimulates` | src/liboryxtu/oryxtu.c:283-298 | SUB_RI of -2^63 ends with wrong flags in every state |
| `BlockCorrect.LinkAccepts` | src/liboryxrun/oryxrun.c:118-163 | the linker accepts every unit the translator produces and builds the image with patched branch and stubs |
| `BlockCorrect.StubRuns` | src/liboryxrun/oryxrun.c:94-103 | an exit stub returns with x17 the pc, for every 64-bit pc, and changes nothing else |
| `BlockCorrect.TermRuns` | src/liboryxrun/oryxrun.c:107-163 | each terminator, linked, returns with x17 the taken target, the fall-through, the popped address or the halt sentinel |
| `BlockCorrect.ImageRuns` | src/liboryxrun/oryxrun.c:118-176 | the linked image never runs past its end and delivers the block's registers, memory, flags and successor, atomics leaving the flags alone |
| `BlockCorrect.BlockRuns` | src/liboryxtu/oryxtu.c:141-394 | the same of translate, link and run, for every accepted block, policy and strength, x18..x30 untouched |
| `BlockCorrect.BlockCorrect` | src/liboryxtu/oryxtu.c:141-394 | for a block without stale flag reads: the x86 meaning of the IR, in registers, memory and successor, and in N, Z, V unless an atomic came after the last setter |
| `BlockCorrect.StaleBlockExactly` | src/liboryxtu/oryxtu.c:255-262 | a block with a final branch on possibly stale flags ends as the IR says exactly when the branch decides the same on them, or goes nowhere else |
| `BlockCorrect.CasBranchExactly` | src/liboryxtu/oryxtu.c:259-262 | the same for LOCK CMPXCHG and a branch, in terms of the flags before and the comparison |
| `BlockCorrect.CasLoopFails` | src/liboryxtu/oryxtu.c:259-262 | a successful swap with ZF clear before goes round the loop again, at every policy and strength |
| `Link.WriteWords` | src/liboryxrun/oryxrun.c:86-103 | overwrites exactly the bytes of the words |
| `Link.PatchBranch` | src/liboryxrun/oryxrun.c:105-116 | replaces the displacement, in range, and keeps opcode and condition |
| `Link.MapLinked` | src/liboryxrun/oryxrun.c:118-176 | refuses a unit with the source's error or returns its linked image |
| `Link.StubsExactly` | src/liboryxrun/oryxrun.c:118-163 | which units are linked with how many stubs, and which error each of the others gets, from the code's length and last bytes, the relocation and the exits |
| `CodeCache.BlockCache.constructor` | src/liboryxrun/oryxrun.c:282-285 | an empty valid table |
| `CodeCache.BlockCache.Find` | src/liboryxrun/oryxrun.c:241-251 | hits exactly the pcs of the abstract map, with their code, for any hash function |
| `CodeCache.BlockCache.Insert` | src/liboryxrun/oryxrun.c:253-262 | adds one pc to the map and never fails below the cap; no pc twice, live counts the used slots |
| `CodeCache.BlockCache.Flush` | src/liboryxrun/oryxrun.c:264-268 | empties the map |
| `CodeCache.HoleMeansAbsent` | src/liboryxrun/oryxrun.c:241-251 | an empty slot on the probe path proves the pc is nowhere in the table |
| `Dispatch.Obtain` | src/liboryxrun/oryxrun.c:292-314 | the image at a pc, cached or fresh, is what translation and linking give; a fresh one is added to the cache, alone if 12288 blocks were in it |
| `Dispatch.RunProgram` | src/liboryxrun/oryxrun.c:272-324 | result code, step count, registers and memory equal those of the run that caches nothing |
| `Dispatch.StepErrorExactly` | src/liboryxrun/oryxrun.c:289-290 | the step error is reported exactly when that many blocks run without reaching the halt sentinel |
| `Decoder.ParseOfBytes` | src/liboryxdec/oryxdec.c:91-273 | every encoding of every supported instruction, with any free REX bits, decodes to it whatever follows |
| `Decoder.BytesOfParse` | src/liboryxdec/oryxdec.c:91-273 | whatever decodes is byte for byte the encoding it is reported to be |
| `Decoder.ModrmReads` | src/liboryxdec/oryxdec.c:25-55 | the ModRM byte decodes to the registers whose bits and REX extensions it holds |
| `Decoder.ParseExtends` | src/liboryxdec/oryxdec.c:91-273 | unless truncation is reported, bytes behind the instruction do not matter, a cut endbr64 excepted |
| `Decoder.EnoughBytes` | src/liboryxdec/oryxdec.c:91-273 | with 10 bytes left truncation is never reported, with 9 it can be |
| `Decoder.TruncatedExactly` | src/liboryxdec/oryxdec.c:91-273 | every proper prefix of every encoding is reported as truncated, except that of an endbr64, which is unsupported |
| `DecoderErrors.ParsesExactly` | src/liboryxdec/oryxdec.c:91-273 | any bytes decode exactly if an encoding stands at their start; otherwise they are truncated when fewer than the opcode, ModRM byte, REX.W and group digit ask for, and unsupported when not |
| `Decoder.CutEndbrChanges` | src/liboryxdec/oryxdec.c:95-101 | a cut endbr64 is unsupported, and decodes once completed |
| `BlockDecoder.DecodeBlock` | src/liboryxdec/oryxdec.c:77-278 | the loop returns the specified block or the specified error, with all reads in bounds |
| `BlockDecoder.DecodesExactly` | src/liboryxdec/oryxdec.c:77-278 | decoding succeeds exactly on bytes that start with a run of supported encodings up to its first control transfer that fits, and gives exactly its operations and length |
| `BlockDecoder.X86Lawful` | src/liboryxdec/oryxdec.c:91-273 | reading and writing instructions are inverse, as DecodesExactly requires |
| `BlockDecoder.DecodeInverts` | src/liboryxdec/oryxdec.c:91-273 | a concatenation of encodings decodes to its operations, or to the capacity error if they do not fit |
| `BlockDecoder.RunIsUnique` | src/liboryxdec/oryxdec.c:91-273 | at most one such run starts at a place |
| `BlockDecoder.DecodeIsLocal` | src/liboryxdec/oryxdec.c:91-273 | the result depends only on the bytes used |
| `BlockDecoder.ImageMoves` | src/liboryxdec/oryxdec.c:219-264 | an image moved up in memory: the same error or length, branch targets and return addresses shifted, nothing else |
| `BlockDecoder.TruncatedImage` | src/liboryxdec/oryxdec.c:91-273 | an image that ends inside a block reports truncation exactly when it does not end inside an endbr64 |
| `BlockDecoder.FetchedExactly` | src/liboryxdec/oryxdec.c:275-277 | the reported length is right exactly when the block is shorter than 2^32 bytes |
| `Pipeline.IrMeansExactly` | src/liboryxdec/oryxdec.c:117-272 | the IR of an instruction does what the instruction does, in every state, exactly when it is not PUSH or POP of RSP |
| `Pipeline.CallReturns` | src/liboryxdec/oryxdec.c:219-268 | through the dispatcher: after a block ending in CALL and, at its target, one ending in RET that keeps the stack pointer and return slot, control is behind the CALL with the stack pointer from before it |
| `Pipeline.BareCallRestores` | src/liboryxdec/oryxdec.c:219-268 | a callee that only returns keeps them, and all registers are then as before the CALL |
| `Pipeline.ReturnHalts` | src/liboryxrun/oryxrun.c:289-318 | a RET that pops the sentinel ends the run with success |
| `Pipeline.BlockMeans` | src/liboryxdec/oryxdec.c:77-278 | the IR of a block means what its instructions mean one after the other |
| `Pipeline.DecodedCompiles` | src/liboryxdec/oryxdec.c:77-278 | translate and link refuse no decoded block, at any policy and strength: preparation fails exactly when and as decoding does |
| `Pipeline.FlagsIrrelevant` | src/liboryxrun/oryxrun.h:50-52 | a block that sets flags before it reads them does the same for any flags at entry |
| `Pipeline.AgreesExactly` | src/liboryxrun/oryxrun.h:50-52 | the pipeline does to a block what the interpreter does, on every host and for all guest flags, exactly when no jump that decides anything reads flags set by an earlier block |
| `Pipeline.BlockThroughPipeline` | src/liboryxrun/oryxrun.c:292-317 | decode, translate, link and run a supported block: the interpreter's registers, memory and pc |
| `Pipeline.ProgramThroughPipeline` | src/liboryxrun/oryxrun.c:272-324 | for every image in the subset the whole run ends with the interpreter's result code, steps, registers and memory |
| `Pipeline.RunImage` | src/liboryxdec/oryxdec.c:280-284 | the same of the caching dispatcher itself |
| `LitmusGate.GateHolds` | experiments/phase0-tso-probe/litmus/oryx_litmus.c:217-292 | the gate protocol's invariant after every schedule: where each worker can be, what its done flag and the gate say, which results are in memory |
| `LitmusGate.ResetIsPrivate` | experiments/phase0-tso-probe/litmus/oryx_litmus.c:355-360 | from main's first reset store until the gate store lands, no worker executes or drains anything |
| `LitmusGate.ResultsAreFresh` | experiments/phase0-tso-probe/litmus/oryx_litmus.c:361-380 | every result main loads in an iteration was written in that iteration |
| `LitmusTests.SoundHolds` | experiments/phase0-tso-probe/litmus/oryx_litmus.c:217-292 | in addition, x and y are 1 exactly when a worker's store has landed, and main's registers are the workers' results |
| `LitmusEnds.CountersHold` | experiments/phase0-tso-probe/litmus/oryx_litmus.c:361-380 | after every schedule `total` is the number of iterations main has finished, and `witnesses` the number of those whose loaded results are exactly the outcome counted |
| `LitmusEnds.MpCounters` | experiments/phase0-tso-probe/litmus/oryx_litmus.c:365-368 | for MP that outcome is r1 = 1, r2 = 0 |
| `LitmusEnds.WrcCounters` | experiments/phase0-tso-probe/litmus/oryx_litmus.c:369-373 | for WRC it is 1, 1, 0 |
| `LitmusEnds.SbCounters` | experiments/phase0-tso-probe/litmus/oryx_litmus.c:374-378 | for SB it is 0, 0 |
| `LitmusEnds.MpTalliesReads` | experiments/phase0-tso-probe/litmus/oryx_litmus.c:365-368 | what main tallies in MP is what the reader loaded in this very iteration |
| `LitmusEnds.WrcTalliesReads` | experiments/phase0-tso-probe/litmus/oryx_litmus.c:369-373 | in WRC, what the relay and then the reader loaded |
| `LitmusEnds.SbTalliesReads` | experiments/phase0-tso-probe/litmus/oryx_litmus.c:374-378 | in SB, what both threads loaded |
| `LitmusEnds.StuckExactly` | experiments/phase0-tso-probe/litmus/oryx_litmus.c:211-385 | there is no deadlock: nothing can happen any more exactly when main has been through all its iterations |
| `LitmusEnds.RunsAreBounded` | experiments/phase0-tso-probe/litmus/oryx_litmus.c:211-385 | the steps of a schedule that do anything are bounded by what there was to do at the start |
| `LitmusEnds.EveryRunEnds` | experiments/phase0-tso-probe/litmus/oryx_litmus.c:354-385 | every schedule can be continued to the end, and `total` is then the iterations asked for |
| `LitmusEnds.TotalExactly` | experiments/phase0-tso-probe/litmus/oryx_litmus.c:354-380 | `total` is the iterations asked for exactly when the run is over |
| `LitmusVerdicts.MpVerdict` | experiments/phase0-tso-probe/litmus/oryx_litmus.c:223-276 | the MP witness counter stays 0 over every schedule and iteration count, fenced or not |
| `LitmusVerdicts.WrcVerdict` | experiments/phase0-tso-probe/litmus/oryx_litmus.c:223-292 | the WRC witness counter stays 0 |
| `LitmusSb.SbFencedVerdict` | experiments/phase0-tso-probe/litmus/oryx_litmus.c:223-276 | the SB witness counter stays 0 with the barrier |
| `LitmusSb.SbRelaxedVerdict` | experiments/phase0-tso-probe/litmus/oryx_litmus.c:223-276 | without it some schedule counts a witness |
| `LitmusSb.TestsAreLitmusPrograms` | experiments/phase0-tso-probe/litmus/oryx_litmus.c:223-292 | all three tests in both modes are programs the protocol theorems cover |
| `Grant.GrantHolds` | src/kmod/oryx_memmodel/oryx_memmodel.c:79-169 | in every reachable state a thread with a completed grant on an eligible core has the control bit set |
| `Grant.EnableGrants` | src/kmod/oryx_memmodel/oryx_memmodel.c:116-156 | an enable call that is not switched out: refused and inert, or ending with the grant and, on an eligible core below 64, the bit, nothing else changed |
| `Grant.DisableReleases` | src/kmod/oryx_memmodel/oryx_memmodel.c:158-169 | a disable call that is not switched out ends without grant, notifier and bit |
| `Grant.IneligibleNeverGains` | src/kmod/oryx_memmodel/oryx_memmodel.c:79-114 | over every run the register of a core at or above 64 or outside the mask never gains the bit |
| `Grant.OtherBitsKept` | src/kmod/oryx_memmodel/oryx_memmodel.c:79-86 | no other register bit of any core ever changes |
| `Grant.UnconfirmedIsInert` | src/kmod/oryx_memmodel/oryx_memmodel.c:122-127 | an unconfirmed driver never writes a register and never grants |
| `Grant.CleanExactly` | src/kmod/oryx_memmodel/oryx_memmodel.c:107-114 | a step leaves the bit with nobody exactly when it switches out a disable between its flag and its apply, with the bit set |
| `Grant.UngrantedRunsWeak` | src/kmod/oryx_memmodel/oryx_memmodel.c:99-169 | in runs without such a step an ungranted thread always runs with the bit clear |
| `Grant.SwitchedOutDisableLeaks` | src/kmod/oryx_memmodel/oryx_memmodel.c:158-169 | with such a step a thread that never asked runs with it set |
| `Sha256.ExpandBlock` | src/liboryxcache/sha256.c:25-32 | the array holds the message schedule of section 6.2.2 of FIPS 180-4 |
| `Sha256.SumIsStandard` | src/liboryxcache/sha256.c:28-32 | the schedule sum is the standard's, in another order |
| `ShaConstants.RoundsAreRoots` | src/liboryxcache/sha256.c:7-16 | the 64 round constants are the first 32 bits of the fractional parts of the cube roots of the first 64 primes, in order |
| `ShaConstants.StartsAreRoots` | src/liboryxcache/sha256.c:51-59 | the initial hash words are those of the square roots of the first eight |
| `Sha256.HashBytesAt` | src/liboryxcache/sha256.c:94-99 | the digest is the eight hash words in order, four bytes each |
| `Sha256.ChooseAndMajority` | src/liboryxcache/sha256.c:37-45 | the two bit functions are bitwise choice and bitwise majority |
| `Sha256.CompressBlock` | src/liboryxcache/sha256.c:20-49 | the rounds over eight variables compute the compression function |
| `Sha256.Context.Update` | src/liboryxcache/sha256.c:61-76 | the context then stands for the message so far followed by the data, for data of any length |
| `Sha256.Context.Finish` | src/liboryxcache/sha256.c:78-92 | the state is the hash of the padded message, padding that spills into a second block included |
| `Sha256.HashParts` | src/liboryxcache/sha256.c:51-108 | any split of a message shorter than 2^61 bytes gives the digest of sections 5.1.1, 5.2.1 and 6.2 of FIPS 180-4 |
| `TuFormat.SerializeTu` | src/liboryxcache/oryxcache.c:32-77 | writes the OTU1 bytes of the unit |
| `TuFormat.ParseTuBytes` | src/liboryxcache/oryxcache.c:80-140 | returns the unit or the format error, as specified |
| `TuFormat.ParseOfTuBytes` | src/liboryxcache/oryxcache.c:32-140 | parse undoes serialize for every unit |
| `TuFormat.TuBytesOfParse` | src/liboryxcache/oryxcache.c:32-140 | re-serializing an accepted buffer gives it back except for the reserved half-word |
| `TuFormat.TuBytesInjective` | src/liboryxcache/oryxcache.c:32-77 | different units have different bytes |
| `TuFormat.AcceptedExactly` | src/liboryxcache/oryxcache.c:80-108 | a buffer is accepted exactly when it is some unit's bytes up to that half-word |
| `TuFormat.TuLayout` | src/liboryxcache/oryxcache.c:46-59 | every header field is at the byte offset and of the width the source writes it |
| `TuFormat.BodyLayout` | src/liboryxcache/oryxcache.c:61-77 | behind it the code, 16 bytes for each relocation, 8 for each exit, and nothing else |
| `TuFormat.RelocLayout` | src/liboryxcache/oryxcache.c:61-77 | the offset, kind and target of every relocation are at their places |
| `TuFormat.ExitLayout` | src/liboryxcache/oryxcache.c:61-77 | every exit is at its place behind the relocations |
| `MapFormat.SerializeMap` | src/liboryxmap/oryxmap.c:24-52 | writes the OMC1 bytes of the map |
| `MapFormat.ParseMapBytes` | src/liboryxmap/oryxmap.c:55-92 | returns the map or the format error, as specified |
| `MapFormat.ParseOfMapBytes` | src/liboryxmap/oryxmap.c:24-92 | parse undoes serialize exactly for maps with strictly ascending pcs and refuses the others |
| `MapFormat.MapBytesOfParse` | src/liboryxmap/oryxmap.c:24-92 | re-serializing an accepted buffer gives it back up to the reserved bytes |
| `MapFormat.MapBytesInjective` | src/liboryxmap/oryxmap.c:24-52 | different maps have different bytes, ascending or not |
| `MapFormat.MapHeaderLayout` | src/liboryxmap/oryxmap.c:33-40 | every header field is at its byte offset |
| `MapFormat.EntryLayout` | src/liboryxmap/oryxmap.c:42-49 | every entry is twelve bytes: pc, class, flags, two zeros |
| `MemoryClassMap.Classify` | src/liboryxmap/oryxmap.c:164-214 | the loop builds the specified entries |
| `MemoryClassMap.EntryExactly` | src/liboryxmap/oryxmap.c:164-214 | the map holds for each operation exactly its class, and nothing for one without |
| `MemoryClassMap.ClassifiedExactly` | src/liboryxmap/oryxmap.c:164-214 | the source's classes by number: 1 with the guard flag for loads and stores based on RSP or RBP, 2 for the others, 3 for atomics, nothing else |
| `MemoryClassMap.DecideExactly` | src/liboryxmap/oryxmap.c:116-134 | for every entry a file can hold and for none: relaxed exactly for class 1 not escaped and unguarded or guard-confirmed, atomic exactly for class 3, ordered otherwise |
| `MemoryClassMap.Lookup` | src/liboryxmap/oryxmap.c:100-113 | binary search returns the entry with that pc, or none exactly when there is none |
| `MemoryClassMap.PipelineDecides` | src/liboryxmap/oryxmap.c:116-134 | RELAX only for a load or store based on RSP or RBP with the guard confirmed, ATOMIC exactly for atomics, TSO for everything else and every pc without an entry, wrapping blocks included |
| `MemoryClassMap.SurvivesExactly` | src/liboryxmap/oryxmap.c:78-89 | a block's map is refused exactly when two accesses lie on either side of the wrap of the pc, and survives otherwise |
| `MemoryClassMap.DecideAccess` | src/liboryxmap/oryxmap.c:100-214 | classify, serialize, parse, look up and decide end to end give that ordering for every block, and TSO when the map is refused |
| `Store.Cache.PutBlob` | src/liboryxcache/oryxcache.c:262-292 | the whole new state: blob written if absent, index pointed at it, or the argument error |
| `Store.Cache.PutTu` | src/liboryxcache/oryxcache.c:344-358 | stores the unit's bytes under its logical key |
| `Store.Cache.GetTu` | src/liboryxcache/oryxcache.c:360-376 | resolve, verify and parse |
| `Store.Cache.PutMap` | src/liboryxmap/oryxmap.c:217-229 | stores the map's bytes under its logical key |
| `Store.Cache.GetMap` | src/liboryxmap/oryxmap.c:231-265 | resolve, verify, parse and compare identities |
| `Store.KeysApart` | src/liboryxcache/oryxcache.c:159-173 | keys are as distinct as identities, and no unit shares a key with a map |
| `Store.PreimageLayouts` | src/liboryxcache/oryxcache.c:159-173 | what the keys are hashes of: content hash, then the other identifiers in the source's order, four bytes each |
| `Store.GetExactly` | src/liboryxcache/oryxcache.c:294-342 | over any run of puts and of damage to blobs and index, a get returns an error or the last put exactly when the entry resolves to no other intact blob, and the last put exactly when it resolves to that blob intact |
| `Store.GetIsLastPut` | src/liboryxcache/oryxcache.c:262-342 | with the index entry undamaged, a get returns an error or exactly the last put, and succeeds exactly when that blob is intact |
| `Store.GetTuIsLastPut` | src/liboryxcache/oryxcache.c:344-376 | the same for units: the unit when its blob is intact, an error otherwise |
| `Store.GetMapIsLastPut` | src/liboryxmap/oryxmap.c:217-265 | the same for maps: the map when its blob is intact and its pcs ascend, an error otherwise |
| `Store.UndamagedIsComplete` | src/liboryxcache/oryxcache.c:262-342 | without damage every get succeeds |
| `Store.PutRepairsExactly` | src/liboryxcache/oryxcache.c:276-281 | after a put a get succeeds exactly when the blob was absent or intact |
| `Store.MapIsGenuine` | src/liboryxmap/oryxmap.c:231-265 | over any run, index damage included, map retrieval returns an error or a map with the requested identity parsed from bytes that were put or planted and hash to the address the entry names |
| `Store.GetTuExactly` | src/liboryxcache/oryxcache.c:360-376 | over any such run, unit retrieval returns an error or the last put exactly when the entry names its address or no intact blob of another unit |
| `Store.RedirectedUnitIsServed` | src/liboryxcache/oryxcache.c:360-376 | two puts and a redirected entry: the first unit is served under the second one's key |
| `CodegenKey.HashBlock` | src/liboryxtu/oryxtu.c:117-138 | the guest hash is the SHA-256 digest of the preimage |
| `CodegenKey.PreimageLayout` | src/liboryxtu/oryxtu.c:117-129 | the preimage is 16 bytes of pc, policy, strength and zeros, then 32 for each operation |
| `CodegenKey.RecordLayout` | src/liboryxtu/oryxtu.c:130-134 | of each: opcode, rd, rn, both halves of the immediate, the target's low half, condition and class, in this order |
| `CodegenKey.PreimageDetermines` | src/liboryxtu/oryxtu.c:117-138 | equal preimages: same pc, policy, strength and operations up to the high half of targets |
| `CodegenKey.KeyCoversCode` | src/liboryxtu/oryxtu.c:110-138 | two translations with equal preimages have byte-identical code |
| `CodegenKey.KeyCoversRestExactly` | src/liboryxtu/oryxtu.c:344-384 | their relocations agree exactly when the target's high half does, their exits exactly when also, for BR, the guest length does |
| `CodegenKey.FarJumpsShareAKey` | src/liboryxtu/oryxtu.c:130-134 | jumps 2^32 apart share a preimage and differ in relocations |
| `CodegenKey.MovedBlocksDiffer` | src/liboryxtu/oryxtu.h:140-147 | the same code at two places has different preimages |
| `CodegenKey.SameKeySameCode` | src/liboryxcache/oryxcache.c:159-173 | units under one logical key have byte-identical code |

## Left out

- LOCK-prefixed operations are in the compiler theorems but not in the ordering theorems: LDADDAL with XZR as destination loses its acquire half.
- Mixed-size and unaligned accesses, and the alignment faults of LDAR and STLR.
- The counters of plain, ordered, atomic and fence operations that the translator reports.
- Allocation failure, mmap, mprotect and instruction-cache maintenance; the page rounding of a mapping.
- The inline-assembly trampoline beyond its effect, and `oryx_exec_run` for a single block.
- Self-modifying guests and guest stores into runtime memory.
- File operations behind the store (atomic write, read, directory creation) and their I/O errors.
- CPU affinity in the grant driver beyond its failure, allocation failure there, and descriptors shared between threads.
- C11 compiler reordering, thread creation and output in the litmus tool; the hardware TSO request.
- The `liboryxprofile` scoring and text handling: floating point and string formatting.
- `liboryxmm`, the command-line tools, `oryx-perf`, the register probe and the shell scripts: plumbing around the modelled code.
- `sha256_hex`: the store takes the hex digest as a function with 64 lower-case hex digits as result.
