# Verified cores of the AArch64 emulator

A Dafny model of the parts of the emulator in which a fast or hand-derived form has
to agree with a simple definition, and proofs that it does. `dafny verify
dfyconfig.toml` checks the whole project.

**Software floating point** (`Words`, `Pow2`, `Wide`, `Ieee`, `FusedEval`, `Fma`, `Narrow`,
`RoundOdd`, `Widen`, `RsqrtStep`). `Ieee` states correct rounding over unbounded
integers: a magnitude is an integer count of units of 2^u for some exponent u below
everything in sight, so every exact product, sum and rounding is an integer fact. The
fused multiply-add, the conversions to half and to single-round-to-odd, the widening
loop and the FRSQRTS kernel are methods proved against it, flags included. `Saturate`
does the same for the saturating and rounding vector kernels.

**Words as numbers** (`Binary`, `Arithmetic`, `OpMeaning`, `StepMeaning`, `AccessMeaning`).
The number of a machine word is the sum of its bits' weights; addition, shifts, masks,
complements and order are proved to be what they are over the integers. With that the
operations of the code generator, its conditions and branches, and its loads and stores
are stated without bit vectors: `Arithmetic.ConditionMeans` says which comparison of the
operands each condition decides, `StepMeaning.CompareBranch` which way a block goes.

**Restartable memory operations and CRC** (`MopsMemory`, `MopsCopy`, `MopsSet`,
`MopsRegisters`, `Crc`, `CrcPolynomial`). A schedule is a list of outcomes, one per access
attempt: a fault, a single byte, or a chunk up to the page boundary. The theorems quantify
over all schedules of all re-executions, for memory and for the registers left behind. The
CRC is proved equal to the bit-serial division through the linearity of the division step,
and that to be the unique remainder of polynomials over GF(2).

**Address translation** (`LargePages`, `TableWalk`, `WalkMeaning`, `Tlb`, `TlbRuns`,
`SplitAccess`, `Mmu`). `WalkMeaning.WalkMeans` states the walk as the one chain of
descriptors that starts at a base register, in integer arithmetic. Each step of a run is
logged as a walk, a one-page invalidation or a full one; a leaf is *live* when some walk
gave it and no later invalidation covers its page or block. The invariant is that whatever
any of the three caches can serve is live. `SplitAccess` proves accesses that span pages,
and the 16-byte forms, to be their bytes one after the other. `Mmu` is the same machine
with its tables updated in place.

**JIT runtime** (`BlockTable`, `Links`, `JitEnv`, `Dispatcher`, `ChainedPages`,
`JumpCache`, `CodePages`, `CodeHistory`). `BlockTable` has the lists as sequences; `JitEnv` has them as index
chains through the arena and the edge pool, every link pointing lower, and each
operation is proved to leave the lists that `BlockTable` says. `CodePages` adds the
code-page bitmap, the D-TLB and a count of writes per page; `CodeHistory` tells the same
by the steps of the run.

**Code generator** (`Ir`, `HostCode`, `Allocator`, `AllocatorUnit`, `Emitter`,
`Backend`). Intermediate operations and abstract host instructions each have a
meaning; emission is the allocator, the lazy flags and the exit stubs.
`Backend.BlockRight` is the simulation theorem for blocks of integer, conditional and
branch operations. Shifts, multiplies, divides and bit reversals are one host
instruction each; their common meaning is a parameter of the theorem, so it holds for
every such meaning.

**Compiled memory accesses** (`Probe`, `GuestMemory`, `SlowPath`, `MemoryOps`,
`FusedRuns`, `RunLength`, `MemoryBlocks`, `FaultFlags`). The state gains guest memory
behind the data cache's page pointers; translation, devices and exceptions are an
arbitrary bus that may refill the caches but leaves their generation and the CPU's
context alone, as `Probe.AccessKeepsSlots` shows of the modelled caches. What a helper
call leaves in caller-saved registers and flags is arbitrary too. `MemoryOps.MemRight`
says that one compiled load or store is the instruction, `FusedRuns.FusedRight` that a
fused run is its instructions one after the other up to the first fault, and
`MemoryBlocks.MemoryBlockRight` puts these together with the straight-line code, the
exits and the entry check, for any dead marks. `FaultFlags.CompiledBlockRight` takes a
block from the marking pass to the committed state.

**Interrupts, time and console** (`Gic`, `GicDevice`, `GicLaws`, `Timer`, `TimerDevice`,
`Console`).

State that the program updates in place is modelled by classes (`FpUnit`, `CrcUnit`,
`CopyUnit`, `SetUnit`, `Mmu`, `Env`, `Cache`, `Unit`, `Device`, `Clock`, `Receiver`)
whose methods are tied to functions on values; the theorems about runs are about those
functions.

## What the code and its comments disagree on

- src/devices/timer.c:77-82 says the cached deadline cannot go stale. It can when the
  64-bit count wraps: `Timer.RetireKeeps` and `Timer.TickIsUpdate` give the exact
  conditions for one retirement and for a whole run, and `Timer.WrapLeavesLineUp` a run
  that shows it.
- src/mmu.c:341-348 looks only at the first page of a store. With the MMU off a store
  can cross into a second page: `CodePages.CrossingStoreKeeps` gives the exact
  condition under which listed code stays current.
- src/devices/gicv2.c:133-137 does not re-evaluate the CPU line, so after an ISACTIVER
  write the line can be up with nothing eligible: `Gic.SetActiveExact` and
  `Gic.NoLostInterrupt` give the exact conditions, `Gic.ActiveWriteLeavesLineUp` a run.
- src/jit/jit.c:822-828 takes it that nothing changed between the exit and the dispatch
  that chains it. A block that remaps its own page can fall through to a chainable exit:
  `ChainedPages.DispatchStays` gives the exact condition and
  `ChainedPages.RemapMakesItStray` a run.
- The flag pass of src/jit/frontend.c:1967-1987 does not count loads and stores as
  readers of NZCV, so a fault can show flags whose definition was marked dead.
  `FaultFlags.CompiledBlockRight` proves the fault right when the flags are live at the
  access or no definition is unread there. That condition is exact for the marks
  (`FaultFlags.DeadReaches`). For the run it is sufficient, and not necessary
  (`FaultFlags.MarkCanBeHarmless`): there the exact condition is that the last definition
  not marked dead left the NZCV of the last definition (`FaultFlags.FaultRightIff`). The
  input that shows the failure is `FaultFlags.FaultShowsOldFlags`.
- src/jit/jit.c:284-288 describes keys as pc << 2 with three context bits; the code
  uses pc << 3 and five bits, and it is that key whose properties are proved.
- The branch of `fused_eval` for an empty window (src/exec_fpsimd.c:848) and the last
  line of `emit_imm64` (src/jit/backend_a64.c:185) cannot be reached; the model proves
  so by not having them.

## Model

| member | source | states |
|---|---|---|
| `Wide.FxMsb` | src/exec_fpsimd.c:776-778 | the index found is the position of the top set bit of the 128-bit value |
| `Wide.FxShl` | src/exec_fpsimd.c:779-783 | the two words shifted left are the value times the power of two |
| `Wide.FxShrSticky` | src/exec_fpsimd.c:784-794 | the quotient by the power of two, and the flag reports any lost bit |
| `Wide.FxCmp` | src/exec_fpsimd.c:795-799 | the comparison orders the 128-bit values |
| `Wide.FxAdd` | src/exec_fpsimd.c:800-802 | the two-word sum with carry is the sum |
| `Wide.FxSub` | src/exec_fpsimd.c:803-805 | the two-word difference with borrow is the difference |
| `Wide.Umulh64` | src/types.h:43-55 | the 32-bit-limb form gives the high word of the product |
| `Ieee.RoundedIsNearest` | src/exec_fpsimd.c:855-869 | no finite value of the format lies closer to the exact one than the rounding used everywhere below, and ties go to the even significand |
| `Ieee.StandardFormats` | src/exec_fpsimd.c:807-820 | the three formats have the precisions, widths and exponent biases of the standard |
| `Ieee.RepresentableIsExact` | src/exec_fpsimd.c:854-858 | a value the format holds rounds to itself |
| `Ieee.OverflowThreshold` | src/exec_fpsimd.c:874-878 | a magnitude rounds past the largest finite value exactly from 2^wmax * (2 - 2^-prec) up |
| `Ieee.RoundsUnique` | src/exec_fpsimd.c:807-892 | the exact value leaves exactly one correct encoding and one set of flags |
| `Ieee.EncodeCanonical` | src/exec_fpsimd.c:884-890 | the final layout decodes to the sign, significand and exponent it was built from |
| `Ieee.DecodeInjective` | src/exec_fpsimd.c:894-908 | a sign and a magnitude have one finite encoding |
| `FusedEval.AlignMeaning` | src/exec_fpsimd.c:826-830 | aligning an operand divides it by the window floor, and the sticky flag is the remainder |
| `FusedEval.OnlyLowerLoses` | src/exec_fpsimd.c:822-830 | only the operand with the lower top bit can lose bits; then it is below 2^106 in the window, the other at least 2^125, and their difference at least 2^124 |
| `FusedEval.Align` | src/exec_fpsimd.c:821-830 | both operands sit in the window exactly, up to their sticky flags |
| `FusedEval.AddAligned` | src/exec_fpsimd.c:831-831 | equal signs: the window and sticky flag hold the sum |
| `FusedEval.SubAligned` | src/exec_fpsimd.c:832-845 | opposite signs: the window and sticky flag hold the difference, after the borrow for a lost tail |
| `FusedEval.RoundAt` | src/exec_fpsimd.c:859-869 | rounding at the low bit with guard and sticky is the nearest-even rounding of the exact value, and reports inexactness exactly |
| `FusedEval.RoundWindow` | src/exec_fpsimd.c:849-870 | the rounded significand is canonical for the format, subnormals included |
| `FusedEval.Pack` | src/exec_fpsimd.c:870-891 | the encoding and IXC, OFC, UFC are those of the one correct rounding |
| `FusedEval.Eval` | src/exec_fpsimd.c:815-892 | for every product, addend, exponent and sign in range the result is the exact sum rounded once to nearest even, with exactly the flags of sections 7.4 to 7.6 of IEEE 754-2019 |
| `Fma.Unpack` | src/exec_fpsimd.c:894-908 | sign, significand with hidden bit and lsb exponent of the encoding, subnormals included |
| `Fma.Product` | src/exec_fpsimd.c:936-945 | the two limbs hold the full significand product |
| `Fma.MulAddFinite` | src/exec_fpsimd.c:936-951 | finite operands: one rounding of the exact n*m + a, and +0 with no flag on exact cancellation |
| `Fma.FusedMultiplyAdd` | src/exec_fpsimd.c:914-990 | fusedMultiplyAdd of section 5.4.1 of IEEE 754-2019 for every encoding: infinities, invalid cases, NaNs and the sign of zero of section 6.3 included |
| `Fma.MulAddUnique` | src/exec_fpsimd.c:909-990 | any two results that meet that specification agree in bits and flags |
| `Fma.FpUnit.A64Fma` | src/exec_fpsimd.c:914-951 | the double form meets the specification and ORs exactly its flags into the pending ones |
| `Fma.FpUnit.A64Fmaf` | src/exec_fpsimd.c:952-990 | the single form meets the specification and ORs exactly its flags into the pending ones |
| `Narrow.F64ToF16` | src/exec_fpsimd.c:470-526 | for all 2^64 doubles: the nearest-even half with IXC, OFC, UFC and IOC exactly as specified, NaN payloads included |
| `Narrow.RoundToHalf` | src/exec_fpsimd.c:490-526 | shift, round and carry into the exponent or into infinity give the correct rounding |
| `Narrow.LayoutRounds` | src/exec_fpsimd.c:500-526 | letting the rounding carry run into the exponent field is the encoding of the rounded value |
| `RoundOdd.F64ToF32RoundOdd` | src/exec_fpsimd.c:533-566 | truncation with a sticky low bit, never infinity from a finite value, with its flags |
| `RoundOdd.OddNeighbour` | src/exec_fpsimd.c:527-566 | rounding to odd returns the value itself or the odd one of its two neighbours |
| `RoundOdd.DoubleRoundingIsOne` | src/exec_fpsimd.c:527-532 | rounding to odd and then to nearest even in a format at least two bits narrower is one rounding |
| `RoundOdd.CapStillOverflows` | src/exec_fpsimd.c:552-555 | where the first rounding stops at the largest finite value the second still overflows, as a single one would |
| `Widen.F16ToF64` | src/exec_fpsimd.c:429-448 | the normalisation loop gives a double of exactly the half's value; infinities and NaN payloads carry over |
| `Widen.RoundTripFinite` | src/exec_fpsimd.c:429-526 | widening a finite half and narrowing it back is the identity with no flag |
| `Widen.RoundTripSpecial` | src/exec_fpsimd.c:429-526 | an infinity comes back, a NaN comes back quieted, and IOC is raised exactly when it was signaling |
| `RsqrtStep.StepFirst` | src/exec_fpsimd.c:1758-1760 | the first arm, halving n, yields one rounding of (3 - n*m)/2 |
| `RsqrtStep.StepSecond` | src/exec_fpsimd.c:1761-1763 | the second arm, halving m, yields the same |
| `RsqrtStep.ThirdArm` | src/exec_fpsimd.c:1764-1764 | when both operands are at the bottom exponent the fused subtract then halving rounds once as well |
| `RsqrtStep.RsqrtStepKernel` | src/exec_fpsimd.c:1745-1765 | for all operands that are not NaN the three arms give the single rounding of (3 - n*m)/2 and its flags, in double and single precision |
| `Saturate.SatSRight` | src/exec_fpsimd.c:1479-1485 | sat_s is the clamp to the signed range, QC exactly when it clamps |
| `Saturate.RoundByCarry` | src/exec_fpsimd.c:1710-1711 | the shift-and-carry identity for rounding right shifts |
| `Saturate.VregShiftRight` | src/exec_fpsimd.c:1667-1722 | every register shift is the exact shift, rounded if asked, then wrapped, or clamped with QC exactly when out of range |
| `Saturate.LeftSignedRight` | src/exec_fpsimd.c:1671-1693 | the pre-shift range checks decide signed overflow exactly, shifts of the lane width and more included |
| `Saturate.LeftUnsignedRight` | src/exec_fpsimd.c:1694-1701 | the same for unsigned lanes |
| `Saturate.RightSignedRight` | src/exec_fpsimd.c:1704-1713 | right shifts of 64 and more, and rounding there, match the exact operation |
| `Saturate.RightUnsignedRight` | src/exec_fpsimd.c:1714-1721 | the same for unsigned lanes |
| `Saturate.NarrowShrRight` | src/exec_fpsimd.c:2318-2340 | each narrowing shift is the exact rounded shift, truncated or clamped to its range with exact QC |
| `Saturate.UsatAddRight` | src/exec_fpsimd.c:1525-1534 | unsigned saturating addition, the 64-bit wrap test included |
| `Saturate.UsqaddRight` | src/exec_fpsimd.c:1538-1543 | unsigned accumulator plus signed addend, the most negative addend included |
| `Saturate.SuqaddRight` | src/exec_fpsimd.c:1651-1660 | signed accumulator plus unsigned addend, by the headroom test at 64 bits |
| `Saturate.SqdmullRight` | src/exec_fpsimd.c:2353-2362 | the check before doubling saturates 2*a*b exactly |
| `Saturate.SqrdmlahRight` | src/exec_fpsimd.c:1557-1572 | the two-word sum, one shift and clamp equal the exact rounded doubling accumulate |
| `Crc.StepsLinear` | src/decode.c:101-107 | bit-serial division steps are linear over exclusive or |
| `Crc.SerialIsXor` | src/decode.c:101-107 | feeding message bits one at a time equals xoring them in first |
| `Crc.SerialByte` | src/decode.c:126-127 | one byte of the definition is eight division steps of the xored remainder |
| `Crc.ReferenceEight` | src/decode.c:118-124 | the bit-serial definition over eight bytes is 64 steps of the low word and 32 of the high one |
| `Crc.TabInit` | src/decode.c:101-112 | row j, entry i of the built table is i after 8*(j+1) division steps |
| `Crc.SlicedIsReference` | src/decode.c:118-124 | the eight lookups equal the bit-serial definition for every accumulator, datum and polynomial |
| `Crc.ByteLoop` | src/decode.c:126-128 | the byte loop equals the bit-serial definition for every length below eight |
| `Crc.CrcUnit.Crc32Step` | src/decode.c:114-129 | with lazily built tables, every length 0..8 gives the bit-serial CRC |
| `CrcPolynomial.StepIs` | src/decode.c:101-107 | a division step multiplies the remainder polynomial by x and subtracts the generator when x^32 appears |
| `CrcPolynomial.SerialIs` | src/decode.c:101-107 | bits fed one after the other give acc times x^n plus the message times x^32, less a multiple of the generator |
| `CrcPolynomial.CrcIsRemainder` | src/decode.c:114-129 | the CRC of a datum is acc times x^n plus the datum times x^32, lowest bit highest, less a multiple of the generator, of degree below 32 |
| `CrcPolynomial.CrcIsTheRemainder` | src/decode.c:114-129 | and nothing else is: any word that satisfies this with any quotient is the CRC |
| `CrcPolynomial.Crc32Generator` | src/decode.c:101-107 | the exponents of the generator of IEEE 802.3 |
| `CrcPolynomial.Crc32cGenerator` | src/decode.c:101-107 | the exponents of the generator of Castagnoli |
| `MopsMemory.PageLimitForm` | src/decode.c:713-714 | the word arithmetic of the two limits, wrap and all, is the largest count of bytes that stay on the page, going up and going down |
| `MopsMemory.CopyLimitIsFarthest` | src/decode.c:761-764 | the two page limits, their minimum and the clip to what is left give the most bytes that leave neither page |
| `MopsCopy.ExecKeeps` | src/decode.c:829-909 | each execution of each stage, however it is chunked or faults, keeps the copy resumable, raises no mismatch, and a successful access shrinks what remains |
| `MopsCopy.RunKeeps` | src/decode.c:829-909 | so does any number of executions and restarts |
| `MopsCopy.CopyIsMemmove` | src/decode.c:829-909 | under every schedule of faults, restarts, chunks and single bytes the three instructions leave memory as memmove of the original contents |
| `MopsCopy.ExecCompletes` | src/decode.c:829-909 | an execution that meets no fault completes within the remaining bytes |
| `MopsCopy.CopyUnit.CopyStep` | src/decode.c:759-785 | on hits the step moves, as memmove, the most bytes of the request that leave neither page; else one byte; or it faults with memory as it was |
| `MopsCopy.CopyUnit.CpyPrologue` | src/decode.c:829-879 | the prologue in place is the modelled prologue, whose registers MopsRegisters.PrologueLeaves and PrologueDoes give |
| `MopsCopy.CopyUnit.CpyTail` | src/decode.c:880-909 | main and epilogue in place are the modelled stages, mismatch checks included |
| `MopsRegisters.PrologueLeaves` | src/decode.c:829-879 | for every start, wrapping or not: a forward prologue keeps the ends of what is left and completes with Xd and Xs there; a backward one keeps their starts |
| `MopsRegisters.PrologueDoes` | src/decode.c:846-879 | a prologue that completes leaves in Xn what remains beyond the first pages, negative going up, positive going down |
| `MopsRegisters.MainSkips` | src/decode.c:899-901 | with less than a page left the main instruction does nothing |
| `MopsRegisters.RunLeaves` | src/decode.c:829-909 | for every start and schedule, Xn is 0 at the end, NZCV is clear, and Xd and Xs are those of the prologue execution that completed: its starts if it went backward, else past its end |
| `MopsRegisters.EndsStay` | src/decode.c:851-853 | while prologue executions go forward the ends of what is left stay |
| `MopsRegisters.StartsStay` | src/decode.c:870-878 | while they go backward its starts do |
| `MopsRegisters.CopyLeaves` | src/decode.c:829-909 | at the end of a copy, under every schedule, Xn is 0; Xd and Xs are past the whole copy if no prologue execution went backward, as given if the completing one did, and else past what was left when it turned forward |
| `MopsSet.SetExecKeeps` | src/decode.c:787-827 | each execution keeps the set resumable, raises no mismatch, and a successful access shrinks what remains |
| `MopsSet.SetIsMemset` | src/decode.c:787-827 | under every schedule the three instructions leave memory as memset of the original |
| `MopsSet.SetExecCompletes` | src/decode.c:787-827 | an execution that meets no fault completes within the remaining bytes |
| `MopsSet.SetUnit.SetStep` | src/decode.c:740-752 | on a hit the step fills the most bytes of the request that stay on the page; else one byte; or it faults with memory as it was |
| `MopsSet.SetUnit.Set` | src/decode.c:787-827 | the stages in place are the modelled ones |
| `MopsRegisters.SetLeaves` | src/decode.c:787-827 | for every start and schedule a set ends with Xd past its last byte, Xn 0 and NZCV clear |
| `LargePages.BlockMaskForm` | src/mmu.c:47-47 | the three block masks are the source expression with the tag byte off |
| `LargePages.CoveringIsSmallest` | src/mmu.c:50-51 | the mask the loop stops at is the narrowest aligned one under which the bases agree |
| `LargePages.GrownCovers` | src/mmu.c:46-54 | the recorded range covers everything it did and the whole new block |
| `LargePages.Cover` | src/mmu.c:51-51 | the shifting loop terminates at that mask |
| `LargePages.Record` | src/mmu.c:46-54 | lp_record in its own form leaves that range |
| `TableWalk.WalkLoop` | src/mmu.c:135-208 | the level loop is the recursive walk, whose answers WalkMeaning.WalkMeans gives in integers: same faults, same leaf |
| `TableWalk.FragmentsShareTheWalk` | src/mmu.c:179-191 | where a walk ends at a block, every other address of it walks to the same leaf at the same offset, with the same rights |
| `WalkMeaning.RegionIs` | src/mmu.c:148-167 | in arithmetic: bit 55 selects the half, TxSZ held to 16..39 its width, EPD and TBI are the bits named, and an address belongs if it sign-extends the width, tag byte apart |
| `WalkMeaning.WalkMeans` | src/mmu.c:135-208 | in integers: outside the region a level-0 fault; inside, from the base register of the half of the address, the walk follows the table descriptors read at base plus 8 times the nine bits of the level and answers by the first word that is none: bus error, invalid, access flag, or the leaf with its address, AP, PXN, UXN and size |
| `WalkMeaning.OneChain` | src/mmu.c:176-206 | there is one such chain of descriptors |
| `WalkMeaning.HalvesApart` | src/mmu.c:154 | an address of one half walks without regard to the base register of the other |
| `WalkMeaning.AddressMeans` | src/mmu.c:228-250 | an access the tables map goes to the output bits of the leaf with the offset bits of its size from the address |
| `WalkMeaning.AbortMeans` | src/mmu.c:243-247 | an abort is the fault of the walk, or a permission fault of the leaf found |
| `WalkMeaning.PermissionRows` | src/mmu.c:104-117 | the four AP rows for each privilege, and the execute-never bits |
| `WalkMeaning.TlbiVaIs` | src/sysreg.c:54-68 | the operand of a TLBI by address names bits 55 to 12, sign-extended |
| `TlbRuns.LiveMeans` | src/mmu.c:56-88 | what "live" says: some walk gave the leaf and no later invalidation covers its page or block |
| `TlbRuns.AfterFlushAll` | src/mmu.c:60-73 | a full flush leaves nothing usable, through the 10-bit slice wrap and the 32-bit generation wrap |
| `TlbRuns.AfterFlushOne` | src/mmu.c:77-88 | a one-page invalidation outside the block range leaves only entries it does not cover |
| `TlbRuns.CoveredAfterWalk` | src/mmu.c:242-242 | every live block stays inside the recorded range |
| `TlbRuns.AfterAccess` | src/mmu.c:281-308 | a data access keeps every cache backed by live walks |
| `TlbRuns.AfterFetch` | src/mmu.c:410-433 | so does an instruction fetch |
| `TlbRuns.RunKeeps` | src/mmu.c:12-88 | every run of accesses, fetches and invalidations keeps the invariant |
| `TlbRuns.TlbHitIsLive` | src/mmu.c:214-226 | a TLB hit is a live walk of the page that allows the access |
| `TlbRuns.DataHitIsLive` | src/mmu.c:294-300 | a D-TLB permission hit is a live walk of the same page, MMU state and privilege whose leaf allows the access |
| `TlbRuns.FetchHitIsLive` | src/mmu.h:53-66 | a fetch-cache hit is a live walk whose leaf this exception level may execute |
| `TlbRuns.ServedAfterTlbi` | src/sysreg.c:54-68 | nothing any cache serves was walked before a TLBI by VA that names its page or any part of its block |
| `TlbRuns.ServedAfterFlush` | src/sysreg.c:188-195 | nothing any cache serves was walked before a full flush |
| `TlbRuns.NextAccessHits` | src/mmu.c:254-279 | a slow RAM access that succeeds puts the next one of its kind on the fast path |
| `TlbRuns.NextFetchHits` | src/mmu.c:418-426 | so does a fetch from a backed page |
| `TlbRuns.OnePageSpares` | src/mmu.h:75-80 | a one-page invalidation outside the block range leaves the hits of every other slot |
| `TlbRuns.CachedIsUncached` | src/mmu.c:228-250 | as long as live translations only become more permissive without a TLBI, every translation answers what an uncached walk would |
| `TlbRuns.FillRefuses` | src/mmu.c:260-279 | a D-TLB fill is refused for device pages and watchpoint runs, and never grants writes to a page with translated code |
| `TlbRuns.FastIsUncached` | src/mmu.c:291-300 | and a fast-path access goes where that translation goes |
| `Mmu.Mmu.FlushAll` | src/mmu.c:60-73 | in place: the full flush, both purge loops included |
| `Mmu.Mmu.FlushPage` | src/mmu.c:77-88 | in place: the one-page invalidation with its escalation |
| `Mmu.Mmu.Translate` | src/mmu.c:210-250 | in place: hit, re-walk, fill, permission verdict |
| `Mmu.Mmu.FillData` | src/mmu.c:260-279 | in place: the D-TLB fill, its refusals included |
| `SplitAccess.AccessCaches` | src/mmu.c:294-308 | inside a page and on the bus path alike, an access leaves the caches as the logged step of the runs does |
| `SplitAccess.InPageIsBytes` | src/mmu.c:291-308 | an access inside a page is its bytes one after the other |
| `SplitAccess.TouchedIsBytes` | src/mmu.c:281-308 | an access of any size under the MMU, however it falls over the pages, is its bytes one after the other: the same physical bytes in order, the first fault at the same address with the same bytes before it, the same caches |
| `SplitAccess.WideIsHalves` | src/mmu.c:441-464 | the one-probe shortcut of the 16-byte forms is the two 8-byte halves in every cache state, faults and caches included |
| `SplitAccess.WideIsBytes` | src/mmu.c:435-464 | and its sixteen bytes one after the other |
| `SplitAccess.LittleJoin` | src/mmu.c:288 | the value of a split read: the low part, and the high part shifted past it, is the little-endian value of all the bytes |
| `SplitAccess.BytesSplit` | src/mmu.c:325-326 | the bytes of a split write are those of the whole value |
| `SplitAccess.PastIs` | src/mmu.c:326 | dropping bytes is the right shift |
| `SplitAccess.LittleBytes` | src/mmu.c:296-331 | what a store of a size leaves reads back as the low bytes of the value |
| `Mmu.Mmu.Access` | src/mmu.c:291-308 | in place: probe unless the bytes run past the page, translate, bus verdict, fill; the physical bytes, the fault, and the caches of the logged step |
| `Mmu.Mmu.ReadBytes` | src/mmu.c:281-308 | in place, with the recursive split: the value is that of the bytes, and caches, fault and bytes touched are those proved bytewise |
| `Mmu.Mmu.WriteBytes` | src/mmu.c:310-352 | in place, with the recursive split: the bytes of the value go to the bytes of the access in order, up to a fault |
| `Mmu.Mmu.Read128` | src/mmu.c:440-451 | in place: shortcut or halves, each half the value of its eight bytes |
| `Mmu.Mmu.Write128` | src/mmu.c:453-464 | in place: shortcut or halves, up to a fault |
| `Mmu.Mmu.Fetch` | src/mmu.h:53-66 | in place: the fetch cache and its slow path |
| `Probe.RunsKeepSlots` | src/mmu.c:260-279 | in every run an entry that grants anything sits in the slot of its own page |
| `Probe.AccessKeepsSlots` | src/mmu.c:281-352 | an access, hit or refill, keeps that and the generation |
| `Probe.InlineIsInterpreter` | src/jit/backend_a64.c:579-603 | then the generated probe, for one access or a fused span, hits exactly when the span lies in one page and the interpreter's probe hits with that permission |
| `Probe.KeyFromContext` | src/jit/jit.c:803-806 | the page of the last byte with the dispatcher's context word is the tag of that byte |
| `BlockTable.InsertKeeps` | src/jit/jit.c:603-608 | inserting a block the table lacks keeps buckets, uniqueness, links and page lists |
| `BlockTable.UnlinkKeeps` | src/jit/jit.c:418-434 | unlinking keeps them, and leaves no exit jumping to the block |
| `BlockTable.UnlinkLists` | src/jit/jit.c:418-421 | unlinking removes that block alone from the table |
| `BlockTable.ChainKeeps` | src/jit/jit.c:828-843 | chaining an exit that the guard allows keeps them and makes the exit jump there |
| `BlockTable.DropPageLists` | src/jit/jit.c:437-449 | dropping a page removes exactly that page's blocks |
| `BlockTable.DropPageKeeps` | src/jit/jit.c:437-454 | and keeps the table's invariant |
| `Dispatcher.CtxIsCtx` | src/jit/jit.c:672-676 | every context fits its five bits, and EL0 excludes a banked stack pointer |
| `Dispatcher.CtxTells` | src/jit/jit.c:672-676 | two states have one context if and only if EL0, MMU, stack-pointer bank and FP trapping agree |
| `Dispatcher.TagNotEmpty` | src/jit/jit.c:284-299 | no key of an aligned address and a real context is the empty pattern |
| `Dispatcher.TagInjective` | src/jit/jit.c:678-682 | a key names one canonical aligned address and one context |
| `Dispatcher.PurgeEmpties` | src/jit/jit.c:289-297 | purging by the dirty list empties the whole cache, as the full fill does |
| `Dispatcher.DispatchKeeps` | src/jit/jit.c:807-857 | a dispatch, with translation, flush for room, chaining and refill, keeps the invariant |
| `Dispatcher.DispatchLists` | src/jit/jit.c:807-820 | a dispatch lists at most the wanted block, and a full table is emptied first |
| `Dispatcher.DispatchHits` | src/jit/jit.c:845-857 | after a dispatch the wanted block is listed and the next indirect branch to it hits |
| `Dispatcher.DispatchChains` | src/jit/jit.c:822-843 | a dispatch that finds its block patches the exit it came by exactly when that is an unpatched exit of a listed block for that address, page and context and an edge is free; no other exit changes |
| `Dispatcher.DropPageInv` | src/jit/jit.c:437-454 | a page drop keeps it, purging the indirect-branch cache when a block went |
| `Dispatcher.FlushKeeps` | src/jit/jit.c:301-309 | a flush keeps it |
| `Dispatcher.StepKeeps` | src/jit/jit.c:718-863 | every step keeps the invariant |
| `Dispatcher.PatchedExits` | src/jit/jit.c:822-843 | in every run a patched exit jumps to a listed block of its pc, context and page, and lies in exactly one incoming list, once |
| `ChainedPages.DispatchStays` | src/jit/jit.c:822-843 | a dispatch keeps every patched exit on its source's host page exactly when it does not chain to code resolved on another |
| `ChainedPages.PatchedExitsStay` | src/jit/jit.c:822-843 | in every run in which no dispatch does that, every patched exit stays on its page |
| `ChainedPages.SettledRunsStay` | src/jit/jit.c:822-843 | none does while each page of each context stays resolved to one host page |
| `ChainedPages.RemapMakesItStray` | src/jit/jit.c:822-843 | a run in which a block whose own page is remapped under it gets its exit patched across |
| `Dispatcher.ProbeHits` | src/jit/jit.c:845-858 | in every run an indirect-branch cache hit names a listed block of that very address and context |
| `JumpCache.Cache.Purge` | src/jit/jit.c:289-299 | in place: the dirty-list loop or the full fill |
| `JumpCache.Cache.Fill` | src/jit/jit.c:852-858 | in place: the refill with its saturating count |
| `Links.ChainRemove` | src/jit/jit.c:419-421 | linking past an element of a downward chain removes it and nothing else |
| `JitEnv.Env.Lookup` | src/jit/jit.c:391-396 | in place: the chain walk |
| `JitEnv.Env.Add` | src/jit/jit.c:603-608 | in place: both chain insertions |
| `JitEnv.Env.ChainExit` | src/jit/jit.c:838-842 | in place: the edge pool insertion |
| `JitEnv.Env.Unlink` | src/jit/jit.c:418-434 | in place: unlinking through a predecessor and unpatching along the edge list |
| `JitEnv.Env.DropPage` | src/jit/jit.c:437-454 | in place: the page chain loop, and whether the cache must be purged |
| `JitEnv.FindLink` | src/jit/jit.c:419-420 | the pointer walk ends at the link to the block, or proves it absent |
| `JitEnv.UnpatchAll` | src/jit/jit.c:422-432 | the edge loop returns every listed exit to its stub |
| `CodePages.InvalidateKeeps` | src/jit/jit.c:630-647 | invalidating a page keeps listed code current and leaves no listed block on it |
| `CodePages.CommitKeeps` | src/mmu.c:335-351 | the slow store: write, hook, refill keep listed code current |
| `CodePages.StoreKeeps` | src/mmu.c:322-352 | so does any guest store within a page, fast or slow |
| `CodePages.BlockWriteKeeps` | src/memory.c:248-264 | so does a device block write |
| `CodePages.DispatchedKeeps` | src/jit/jit.c:610-618 | so does a translation, which marks its page and strips write permission from every alias |
| `CodePages.FlushCodeKeeps` | src/jit/jit.c:653-662 | so do a flush and a reset |
| `CodePages.StepKeeps` | src/mmu.c:310-352 | every step of every kind keeps it |
| `CodePages.ListedIsCurrent` | src/jit/jit.c:610-618 | in every run a listed block on a RAM page has seen no write since it was translated |
| `CodeHistory.StepCounts` | src/mmu.c:322-352 | every step adds to the write count of a page exactly what it writes there |
| `CodeHistory.StepBlocks` | src/jit/jit.c:601-647 | every step lists at most the block it translates, keeps the others and their stamps, and drops one only for a flush, an invalidation or a write of its page |
| `CodeHistory.NotWrittenSince` | src/jit/jit.c:610-618 | in every run a listed block on a RAM page was translated by one dispatch of the run, and no later step wrote that page |
| `CodePages.CrossingStoreKeeps` | src/mmu.c:341-350 | a store across two RAM pages with the MMU off, refill included, keeps it exactly when the first page is marked or no listed block lies on the second |
| `CodePages.CrossingStoreCanBreak` | src/mmu.c:341-348 | a concrete state in which such a store leaves stale code listed |
| `HostCode.Imm64Loads` | src/jit/backend_a64.c:150-186 | whichever chunk seeds it, the emitted sequence loads exactly the constant and changes nothing else |
| `AllocatorUnit.LoadConstant` | src/jit/backend_a64.c:150-186 | in its own loops: that sequence |
| `Allocator.PickSpares` | src/jit/backend_a64.c:218-230 | eviction never takes a register of an operand already fetched |
| `Allocator.AllocRight` | src/jit/backend_a64.c:218-230 | making room changes no value and at most brings one home up to date |
| `Allocator.UseRight` | src/jit/backend_a64.c:231-242 | after a use the register holds the value and nothing else moved |
| `Allocator.UseKeeps` | src/jit/backend_a64.c:231-242 | a use takes no kept register for another value |
| `Allocator.UseThree` | src/jit/backend_a64.c:455-461 | three operands fetched in turn are all in their registers |
| `Allocator.DefRight` | src/jit/backend_a64.c:243-255 | after a definition, whatever is written to the register becomes the value |
| `Allocator.SyncRight` | src/jit/backend_a64.c:272-275 | after a sync every dirty value has reached its home |
| `AllocatorUnit.Unit.FindRegister` | src/jit/backend_a64.c:219-225 | in place: the scan for a free or least recently used register |
| `AllocatorUnit.Unit.Take` | src/jit/backend_a64.c:218-230 | in place: the eviction |
| `AllocatorUnit.Unit.UseRegister` | src/jit/backend_a64.c:231-242 | in place: ra_use |
| `AllocatorUnit.Unit.DefineRegister` | src/jit/backend_a64.c:243-255 | in place: ra_def |
| `AllocatorUnit.Unit.SyncAll` | src/jit/backend_a64.c:272-275 | in place: sync_all |
| `Emitter.BodyDid` | src/jit/backend_a64.c:1797-2052 | the code of every integer and conditional operation leaves the registers, and the flags it defines, as the operation means |
| `Emitter.AluImmDid` | src/jit/backend_a64.c:1864-1902 | immediates folded, shifted or loaded through a scratch register compute the same |
| `Emitter.CselDid` | src/jit/backend_a64.c:2016-2030 | selects with zero operands in scratch registers leave what StepMeaning.SelectStep says |
| `Emitter.MovkDid` | src/jit/backend_a64.c:1810-1818 | MOVK through a copy when source and destination differ |
| `Arithmetic.AddMeans` | src/decode.c:49-71 | over the integers, both widths: ADD and ADC give the sum modulo 2^width, C that it carries, V that the signed sum does not fit, N and Z of the result |
| `Arithmetic.SubMeans` | src/decode.c:49-71 | SUB and SBC the difference, C that nothing is borrowed, V that the signed difference does not fit |
| `Arithmetic.ConditionMeans` | src/cpu.c:359-377 | after a compare each of the sixteen conditions holds if and only if the operands stand in its relation, unsigned or signed |
| `Arithmetic.OddNegates` | src/cpu.c:375 | an odd condition negates the even one before it, except the last |
| `OpMeaning.LogicMeans` | src/jit/ir.h:50-53 | logical operations work bit by bit within the width and clear C and V |
| `OpMeaning.ChosenMeans` | src/jit/ir.h:80 | a select gives one source, or the other as it is, plus one, complemented or negated modulo 2^width |
| `OpMeaning.InsertMeans` | src/jit/ir.h:43 | MOVK replaces one 16-bit field and keeps the digits below and above |
| `StepMeaning.ArithmeticStep` | src/jit/ir.h:45-57 | an arithmetic operation changes its destination to that number, its flags if it sets them, and nothing else |
| `StepMeaning.LogicStep` | src/jit/ir.h:50-53 | so does a logical one, bit by bit |
| `StepMeaning.MoveStep` | src/jit/ir.h:41-43 | moves give the immediate, the register or the inserted field, cut to the width |
| `StepMeaning.CompareBranch` | src/jit/ir.h:97 | a compare and a conditional branch go to the taken exit if and only if the comparison of the numbers holds, and count modulo 2^64 |
| `StepMeaning.SelectStep` | src/jit/ir.h:80 | a select writes the chosen number to its destination and nothing else |
| `StepMeaning.ConditionalCompareStep` | src/jit/ir.h:81-82 | a conditional compare compares when its condition holds and else sets the flags given |
| `StepMeaning.OtherEndings` | src/jit/ir.h:98-100 | compare-with-zero and bit-test branches decide by the number and the digit; an indirect exit goes to the register |
| `StepMeaning.RefusalMeans` | src/jit/backend_a64.c:1736-1757 | the entry check turns a block away for an interrupt or a count that has reached the deadline |
| `Backend.StepSim` | src/jit/backend_a64.c:312-381 | the code of one operation, whatever its dead mark, keeps registers and NZCV in step with the operation, a definition marked dead leaving NZCV alone |
| `Backend.OpsSim` | src/jit/backend_a64.c:1758-1759 | so does a whole run of operations |
| `Backend.RunAlike` | src/jit/frontend.c:1967-1987 | with sound marks such a run ends in its meaning, NZCV included |
| `Backend.StubRuns` | src/jit/backend_a64.c:386-400 | an exit stub commits exactly its successor address and count |
| `Backend.EndCommits` | src/jit/backend_a64.c:2055-2111 | every ending leaves registers, NZCV, pc and count in memory, on the side of a branch that StepMeaning.CompareBranch and OtherEndings give |
| `Backend.BlockRight` | src/jit/backend_a64.c:1727-1768 | running the code of any block with sound dead marks gives the registers, NZCV, successor and count the block means; StepMeaning says what each operation and ending means in integers |
| `Backend.MarkSound` | src/jit/frontend.c:1967-1987 | the backward pass marks exactly the flag definitions that nothing reads |
| `Backend.CompiledRight` | src/jit/frontend.c:1967-1987 | a block marked by that pass and then compiled runs as it means |
| `SlowPath.StoreDirtyRight` | src/jit/backend_a64.c:298-302 | the slow branch brings every home up to date, also while mapped destinations do not hold their values yet |
| `SlowPath.ReloadRight` | src/jit/backend_a64.c:303-308 | after the call every register it may have lost holds its value again |
| `SlowPath.MergeAgrees` | src/jit/backend_a64.c:673-677 | from there the merge puts a loaded value in its register and the allocator's state stands |
| `GuestMemory.LoadStored` | src/mmu.c:294-332 | a load from where a store of that size just went gives back its low bytes |
| `GuestMemory.StoredElsewhere` | src/mmu.c:329-333 | and every byte outside the store is untouched |
| `GuestMemory.ShiftsKeepLow` | src/jit/jit.c:499-502 | the shifts of the helper to the top and back keep the low bytes, which the sign is then extended from |
| `GuestMemory.SameExtension` | src/jit/jit.c:499-503 | the generated extension and the helper's agree on every value a load of that size can give, except exactly an eight-byte value with an upper half loaded into a 32-bit register, which the front end never asks for |
| `GuestMemory.FastIsInterpreter` | src/jit/backend_a64.c:579-604 | the probe's own key, made from the context word, decides as the interpreter's test of the whole span |
| `GuestMemory.SpanHits` | src/jit/backend_a64.c:735-751 | every access inside a span that hits finds the same entry |
| `GuestMemory.SpanPointer` | src/jit/backend_a64.c:752-762 | at its distance from the span's first byte |
| `MemoryOps.GateRight` | src/jit/backend_a64.c:523-538 | the stack-pointer check leaves for the vector exactly when the interpreter faults, and otherwise changes nothing |
| `MemoryOps.AddressRight` | src/jit/backend_a64.c:562-572 | the address arrives in its register by move, add, subtract or a loaded constant |
| `MemoryOps.FastStoreRight` | src/jit/backend_a64.c:609-611 | a hit stores what the helper stores where it stores it |
| `MemoryOps.FastLoadRight` | src/jit/backend_a64.c:612-616 | a hit loads and extends what the helper does |
| `MemoryOps.HelperRight` | src/jit/jit.c:494-516 | the helper on current homes does to homes, flags and count what the instruction does, faults included |
| `MemoryOps.SlowRight` | src/jit/backend_a64.c:641-671 | spill, helper, reload give that, or the committed state at the vector with the faulting instruction counted |
| `MemoryOps.MemRight` | src/jit/backend_a64.c:540-679 | a load or store of compiled code, hit or miss, ends with the memory, caches, registers, flags, count and an agreeing allocator state of the instruction, or at its vector with everything committed |
| `AccessMeaning.LoadIs` | src/mmu.c:294-300 | a load is the little-endian number of its bytes |
| `AccessMeaning.StoreIs` | src/mmu.c:329-333 | a store puts the bytes of the value, lowest first, at its address and after, and touches no other |
| `AccessMeaning.ExtendedIs` | src/jit/jit.c:499-503 | the extension is the unsigned or two's complement reading of the field modulo 2^width |
| `AccessMeaning.LoadMeans` | src/jit/ir.h:84-90 | a load the caches serve puts that number of the bytes at base plus offset into its register and changes nothing else |
| `AccessMeaning.StoreMeans` | src/jit/ir.h:91 | a store the caches serve writes those bytes and changes nothing else |
| `AccessMeaning.MissMeans` | src/jit/jit.c:494-516 | an access the caches do not serve is that of the bus at base plus offset, a load taking the reading of its answer |
| `AccessMeaning.FaultMeans` | src/jit/jit.c:494-516 | a fault leaves the registers, goes where the trap says with its flags, and counts the access and the instructions before it |
| `FusedRuns.OneCheck` | src/jit/backend_a64.c:712 | one stack-pointer check stands for all of a run |
| `FusedRuns.MapStores` | src/jit/backend_a64.c:713-717 | operands of a run are all in their registers together with the base |
| `FusedRuns.MapLoads` | src/jit/backend_a64.c:258-269 | destinations mapped without their values evict neither the base nor each other, and nothing stale is stored |
| `FusedRuns.FastStores` | src/jit/backend_a64.c:757-764 | a run of stores behind one probe is its stores one after the other |
| `FusedRuns.FastLoads` | src/jit/backend_a64.c:757-770 | so is a run of loads, in registers that end up dirty |
| `FusedRuns.HelpsRight` | src/jit/backend_a64.c:774-803 | the bail path's calls are the accesses in order, and a fault at any of them leaves with those before it done |
| `FusedRuns.RefillRight` | src/jit/backend_a64.c:804-808 | loaded values come back from their homes and the allocator's state stands |
| `FusedRuns.FusedRight` | src/jit/backend_a64.c:695-815 | a fused run, hit or miss, is its instructions one after the other, up to the first that faults: memory, caches, registers, flags, count, allocator state |
| `FusedRuns.RunStops` | src/jit/backend_a64.c:800-802 | when it faults, those before the faulting one are done and the outcome is that one's |
| `RunLength.FindRun` | src/jit/frontend.c:2043-2072 | the scan finds the longest run, of at most eight, on one base, within a page's span and six registers, whose base no earlier load overwrites |
| `RunLength.FusableRunOk` | src/jit/frontend.c:2043-2072 | such a run meets what the fused code needs, its signed offsets as 64-bit words |
| `MemoryBlocks.PartRight` | src/jit/backend_a64.c:1758-1759 | a straight-line part, a single access or a fused run, whatever its marks, keeps the simulation or leaves committed |
| `MemoryBlocks.RunsOnce` | src/jit/backend_a64.c:1727-1768 | the code of a block leaves one state only, so what the theorems say of a final state they say of every one |
| `MemoryBlocks.MemoryBlockRight` | src/jit/backend_a64.c:1727-1768 | the code of a whole block with memory, with any dead marks, from the entry check on, ends with the registers, successor, count, memory and caches of its instructions one after the other and the NZCV of the definitions not marked dead: at its end, at the vector of the first fault, or turned away |
| `FaultFlags.MarkFlags` | src/jit/frontend.c:1967-1987 | the backward loop over a block with memory |
| `FaultFlags.LiveMeans` | src/jit/frontend.c:1970-1987 | live at a point says that a reader or the end comes before any setter |
| `FaultFlags.SequenceAlike` | src/jit/frontend.c:1967-1987 | as long as nothing faults, marked code has the registers, count, memory and caches of its meaning, and its NZCV wherever live; and it faults at the same access |
| `FaultFlags.KeptFlags` | src/jit/frontend.c:1979-1983 | NZCV in marked code is what the last definition not marked dead left |
| `FaultFlags.FlagsRight` | src/jit/frontend.c:1979-1985 | that is the NZCV of the meaning when the flags are live there or no definition is unread |
| `FaultFlags.DeadReaches` | src/jit/frontend.c:1979-1985 | which is exactly when no definition marked dead reaches that point |
| `FaultFlags.FaultRightIff` | src/jit/frontend.c:1967-1987 | a faulting access shows the state of its meaning if and only if the last definition not marked dead left the NZCV of the last definition |
| `FaultFlags.CompiledBlockRight` | src/jit/backend_a64.c:1727-1768 | from marking to execution: a block with memory, marked by the pass and compiled, commits its full meaning when nothing faults; at a fault it is the same access, all before it done, with the NZCV of the last definition not marked dead, and the full state of the meaning when the flags are live there or no definition is unread |
| `FaultFlags.FaultShowsOldFlags` | src/jit/frontend.c:1979-1983 | a run from power-on: comparison, load, comparison; the load faults and the handler is entered with the flags from before the first comparison |
| `FaultFlags.MarkCanBeHarmless` | src/jit/frontend.c:1979-1983 | a block whose dead mark before an access never shows: the condition on the marks is sufficient for the run and not necessary |
| `Gic.Best` | src/devices/gicv2.c:13-22 | the least eligible interrupt in (priority, INTID) order, or spurious exactly when there is none |
| `Gic.EdgeIsLatched` | src/devices/gicv2.c:40-49 | in every run a rising edge stays pending until it is acknowledged, cleared, reconfigured or reset, and the CPU line is up while it is enabled, inactive and unmasked |
| `Gic.SetIrqKeeps` | src/devices/gicv2.c:33-51 | the early return when pending does not move loses no update of the CPU line |
| `Gic.SetActiveExact` | src/devices/gicv2.c:133-137 | an ISACTIVER write leaves the line exact if and only if it was and some eligible interrupt is spared, if there is any |
| `Gic.StepKeeps` | src/devices/gicv2.c:110-203 | every register access and line change keeps the CPU line up whenever an interrupt is eligible; the line is exact after it if and only if the access re-evaluates it, or it was exact and the access is no ISACTIVER write that takes the last eligible interrupt |
| `Gic.NoLostInterrupt` | src/devices/gicv2.c:24-51 | in every run the CPU line is up whenever an interrupt is eligible, and exactly then if and only if every ISACTIVER write that left nothing eligible was followed by an access that re-evaluates the line |
| `Gic.ActiveWriteLeavesLineUp` | src/devices/gicv2.c:133-137 | a run after which an ISACTIVER write leaves the line up with nothing eligible |
| `Gic.NeverTwice` | src/devices/gicv2.c:172-181 | IAR never returns an INTID twice without a deactivation of it or a reset in between |
| `GicLaws.BestMeans` | src/devices/gicv2.c:13-22 | field by field: IAR returns the enabled, pending, inactive, unmasked interrupt of the lowest priority value and then INTID, or 1023 |
| `GicLaws.BankWrite` | src/devices/gicv2.c:113-142 | each set and clear write changes exactly the interrupts with a one in the number written |
| `GicLaws.FieldWrite` | src/devices/gicv2.c:143-164 | a priority write sets the bytes it covers, a configuration write the upper bit of each pair, and nothing else |
| `GicLaws.EndWrite` | src/devices/gicv2.c:194-200 | an EOIR write makes its interrupt inactive and leaves every other as it was |
| `GicLaws.ControlWrite` | src/devices/gicv2.c:192-193 | CTLR and PMR writes change their own field |
| `GicLaws.LineChange` | src/devices/gicv2.c:33-51 | a line change moves its own line, and its own pending flag with the level or on a rising edge |
| `GicLaws.RefreshDecides` | src/devices/gicv2.c:24-31 | every access that re-evaluates leaves the CPU line up exactly when an interrupt is eligible |
| `GicLaws.LevelComesAgain` | src/devices/gicv2.c:194-200 | in every run a level interrupt acknowledged and ended while its line is up is pending and inactive again, raises the CPU line when enabled and unmasked, and is what IAR returns exactly when nothing is ahead of it |
| `GicDevice.Device.FindBest` | src/devices/gicv2.c:13-22 | in place: the scan |
| `GicDevice.Device.SetLine` | src/devices/gicv2.c:33-51 | in place: the line change |
| `GicDevice.Device.Acknowledge` | src/devices/gicv2.c:172-181 | in place: the IAR read |
| `GicDevice.Device.WriteBank` | src/devices/gicv2.c:113-142 | in place: the set and clear bank registers |
| `GicDevice.Device.WritePriority` | src/devices/gicv2.c:143-147 | in place: IPRIORITYR |
| `GicDevice.Device.WriteConfig` | src/devices/gicv2.c:157-161 | in place: ICFGR |
| `GicDevice.Device.WriteControl` | src/devices/gicv2.c:189-203 | CTLR, PMR and EOIR written in place are the modelled writes, whose effect on every INTID GicLaws.ControlWrite and EndWrite give |
| `Timer.CheckRight` | src/devices/timer.c:77-85 | the single compare of a tick leaves the lines an unconditional update would |
| `Timer.UpdateDrives` | src/devices/timer.c:38-40 | after an update a timer line is up if and only if ENABLE is set, IMASK clear and the count at or past the compare value, in arithmetic on the registers; no other line moves |
| `Timer.DeadlineIs` | src/devices/timer.c:46-55 | the deadline is the earliest compare value of a timer that can fire |
| `Timer.WriteSets` | src/sysreg.c:219-240 | a register write sets its own timer only: control, compare value, or a compare value that far from the count |
| `Timer.TimerValueCounts` | src/sysreg.c:223 | a timer set to go off in so many ticks does so then and not before |
| `Timer.RetireKeeps` | src/devices/timer.c:77-85 | retiring keeps that if and only if the 64-bit count does not wrap below the deadline under an asserted line |
| `Timer.RetireThenTick` | src/devices/timer.c:77-85 | in exactly that case the next tick drives the lines as an unconditional update would |
| `Timer.StepKeeps` | src/sysreg.c:237-240 | of retirement, CNT* writes, waits, ticks, interrupt traffic and resets only such a retirement does not |
| `Timer.TickIsUpdate` | src/devices/timer.c:57-85 | in every run, wrapping or not, a tick drives both timer lines as an unconditional update would if and only if no line is up ahead of the cached deadline |
| `Timer.RunKeeps` | src/devices/timer.c:57-85 | in every run without a retirement that wraps below the deadline under an asserted line it does |
| `Timer.WrapLeavesLineUp` | src/devices/timer.c:77-82 | a run, waiting for the deadline and then retiring through the wrap, in which it does not |
| `Timer.RemainingIs` | src/devices/timer.c:107-120 | the ticks remaining are those to the nearest armed deadline |
| `Timer.LandsOnDeadline` | src/platform.c:201-222 | a fast-forward lands exactly on the nearest armed deadline, never past it, and otherwise the clock stands still |
| `TimerDevice.Clock.Update` | src/devices/timer.c:57-75 | in place: timer_update |
| `TimerDevice.Clock.NextDeadline` | src/devices/timer.c:46-55 | in place: deadline_count |
| `TimerDevice.Clock.Check` | src/devices/timer.c:83-85 | in place: timer_check |
| `TimerDevice.Clock.WaitForEvent` | src/platform.c:198-226 | in place: the deterministic wait |
| `Console.DeliverConserves` | src/devices/virtio_console.c:135-191 | the bytes stored followed by those still queued are the old queue, in order |
| `Console.DeliverReports` | src/devices/virtio_console.c:181-182 | published lengths add up to the bytes stored, one element per consumed head in order, and heads remain only when the queue is empty |
| `Console.DeliverInBuffers` | src/devices/virtio_console.c:163-177 | every byte lands inside a writable buffer; DeliverPlaces says at which address |
| `Console.ChainPlaces` | src/devices/virtio_console.c:150-180 | the k-th byte stored for a head goes to the k-th writable byte of the at most q descriptors its links reach, as many as there is room for or are queued |
| `Console.DeliverPlaces` | src/devices/virtio_console.c:139-184 | head by head: each takes the next bytes of the queue to its own places, the smaller of its room and what is queued, and none once the queue is empty |
| `Console.HeadsAre` | src/devices/virtio_console.c:140-148 | the heads are the entries of the ring from the last one taken to the index, around both ends |
| `Console.Receiver.Push` | src/devices/virtio_console.c:123-131 | a byte goes last, or is dropped when the ring is full |
| `Console.Receiver.TakeRun` | src/devices/virtio_console.c:166-176 | one contiguous run moves the queue's front to guest memory |
| `Console.Receiver.Fill` | src/devices/virtio_console.c:163-177 | the buffer loop takes what fits, across the wrap point, from the first byte of the buffer on |
| `Console.Receiver.FillFrom` | src/devices/virtio_console.c:150-180 | the chain loop, bounded by the queue size |
| `Console.Receiver.Flush` | src/devices/virtio_console.c:135-191 | the three nested loops terminate and deliver exactly what DeliverPlaces says |

## Left out

- RsqrtStep.RsqrtStepKernel: does not state the result for NaN operands, which the callers screen out before the kernel.
- SplitAccess.TouchedIsBytes: with the MMU off an access that crosses a page is one bus access, which refills the slot of its first page only; then it is not its bytes one after the other, and the recursion does not split it.
- Mmu.Mmu.ReadBytes: the physical bytes are named and their contents are a function; on device pages the bytes are the same but the device sees accesses of other sizes.
- Mmu.Mmu.WriteBytes: the code-page hook after a slow store is in CodePages.ListedIsCurrent, and the watchpoint trace is not modelled.
- MopsCopy.CopyUnit.CopyStep: memory is flat in the 56 address bits; what translation and the data cache decide is the outcome the schedule gives each step.
- MopsCopy.CopyIsMemmove: for regions that do not wrap the 56-bit address space, and for the forward-only forms no overlap with the source below the destination, as the instructions require of their users.
- MopsSet.SetIsMemset: for regions that do not wrap the 56-bit address space.
- Crc.CrcUnit.Crc32Step: only the two polynomials the instructions use, and at most eight bytes.
- Timer.TickIsUpdate: the virtual offset is never written by the program and is taken as zero.
- GicLaws.BankWrite: register offsets come decoded, as the first interrupt of the register; ITARGETSR is not modelled.
- Gic.NoLostInterrupt: register offsets beyond the 256 interrupts are excluded.
- StepMeaning.ConditionalCompareStep: the flags of a negated conditional compare are those of an addition, which Arithmetic.AddMeans gives.
- Backend.BlockRight: memory and the entry check are in MemoryBlocks.MemoryBlockRight; vector, atomic and helper-call operations and the overflow of the code buffer are not part of either.
- Backend.MarkSound: for straight-line code, whose only reader of the flags beyond it is an exit; blocks with memory are in FaultFlags.CompiledBlockRight.
- Backend.EndCommits: the inline probe of the indirect-branch cache after a committed indirect exit is not part of it; Dispatcher.ProbeHits says what a hit is.
- Emitter.BodyDid: does not cover the vector, atomic, CPU-field and helper-call operations.
- MemoryOps.MemRight: 1, 2, 4 and 8 byte integer accesses; the address of the current instruction that helpers record, and the bisection switch that forces the slow branch, are not part of the state.
- MemoryBlocks.MemoryBlockRight: vector and atomic accesses are not parts.
- FaultFlags.CompiledBlockRight: for a bus whose completed accesses do not depend on NZCV, as those of the emulator do not; FaultFlags.FaultRightIff also takes it that an abort records NZCV, as the saved status register does.
- Dispatcher.ProbeHits: for addresses that are 4-aligned and canonical, as the runtime assumes of its keys.
- CodePages.ListedIsCurrent: covers guest stores within a page, memory copy and set chunks, DC ZVA, device block writes and IC IVAU; single-word device writes to RAM and flash erases have no hook in the code.
- TlbRuns.CachedIsUncached: translation-table edits that take rights away or move a page need their TLBI first; the architecture leaves the rest open.
- Console.Receiver.Flush: guest memory is the list of bytes stored and the used ring is the list of elements published; slot arithmetic in the used ring and 64-bit wrap of buffer addresses are not modelled.
- Dispatcher.PatchedExits: the generation and invalidation counters that tell the dispatcher when to purge are not modelled; a purge may happen at any step. Host pages are in ChainedPages.
- Saturate.VregShiftRight: SQABS, SQNEG, SQSHLU and the 64-bit signed adds and subtracts next to it are not modelled.
- Bitwise or of disjoint fields is written as a sum in the floating-point and saturating modules.
- Host floating point (add, multiply, divide, square root, fenv) and the vector replay classes of the generator.
- Host instruction encodings, branch displacement patching, the code-cache mapping and instruction-cache maintenance.
- Region allocation, W^X mapping, statistics, tracing and profiling of the JIT.
- Real-time clock mode, tty handling, virtio transmit, block, net and 9p devices, PL011, PL031, fw_cfg, PSCI.
- The instruction decoder, the predecoder, the front end apart from its flag pass and the scan for fused runs (RunLength), and the x86-64 generator.
