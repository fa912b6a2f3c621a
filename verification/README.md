# Verified models of vLLM-MetaX

This project models the parts of the repository whose correctness is hardest to see by reading, and
proves what they are meant to guarantee, for all inputs, all runs and all interleavings.

| component | modules |
|---|---|
| sleep/wake allocator over a virtual-memory driver that may refuse any request | `Chunks`, `Partition`, `CumemDriver`, `CumemState`, `CumemMeaning`, `CumemRuns`, `CumemSafety`, `CumemCounts`, `CumemClean`, `CumemObliging`, `CumemLost`, `CumemAllocator` |
| two-shot all-reduce exchange, its colours, tiles and buffer layout, from one launch to the next | `TwoShot`, `Launches`, `LaunchBoundary` |
| group reduction of the quantising codecs | `GroupReduce` |
| build-time report: the event sweep and the log reader | `NinjaSpec`, `NinjaEvents`, `NinjaSweep`, `NinjaLog` |
| scalar types: the packed id and the largest value of a float format | `ScalarTypeId`, `ScalarTypeMax` |
| batched tests: report tags, resuming from reports, leases of devices and nodes | `Labels`, `Resume`, `ResumeChain`, `LeaseBook`, `Leases`, `ClusterLeases` |
| CPU affinity masks, kernel CPU lists and the NUMA node of a CPU | `CpuAffinity`, `CpuList` |
| shared | `Arith`, `Text`, `Wrappers` |

Code that changes state is modelled as classes and methods with loops, proved against functions on
values; code that computes is modelled as functions. What those functions mean is then proved as
lemmas: an invariant of every run, an independent specification, a round trip or a conservation law.

## How each component is modelled

**Allocator.** The driver is three maps: reserved ranges, live handles with their sizes, and mapped
ranges. Its calls fail arbitrarily when they ask for something, and exactly when their arguments are
not live when they give something back; a failing call changes nothing. How often the driver declines, or
passes over, what it could have granted is counted, so that every operation is held to its full effect
when the count has not moved. The table is the Python side's
registry, whose entries say what that side believes. What it does not know is kept apart as the `Fate`
of addresses and handles: registered addresses that are `homeless` (the reservation is lost) or `dead`
(registered as awake, but the chunks are gone), `stranded` reservations without an entry, and `leaked`
handles. The invariant `Consistent` says that the driver holds precisely what the live entries say, as
disjoint unions, and the leaked handles. The operations are those of the Python side: malloc, free,
sleep, discard, wake, and trimming an unused allocation of a pool; each is a relation on states
(`CumemRuns.Follows`), and the class is shown to refine it in every state that runs can reach. The sticky
global error code is part of the state. An operation is `Wild` when it takes the chunks of a dead entry
back although some of them meet a mapping or a handle that is in use again. Consistency ends exactly
there; that every reservation has an entry or is stranded (`Accounted`) holds beyond.

**Two-shot exchange.** One block slot on every rank, as a state machine whose steps are a send, a flag
and a receive. Buffers are never cleared between tiles; a 32-bit colour that wraps around is the only
thing that tells a fresh flag from a stale one. Addition is an uninterpreted operation, so the result is
stated in rank order and no algebra of floating-point numbers is assumed. Slots with other tile sizes share
the buffer from launch to launch; launches are taken to run in order on each rank, and nothing is assumed
about how far ranks are apart.

**Build report.** Times are real numbers. The specification charges each stretch between two consecutive
events equally to the steps that run throughout it; the code does the same with one accumulator.

**Scalar types.** The id is modelled for any list of field widths, signed or not, of at most 64 bits, with the
arithmetic right shift of a negative id. Float patterns are decoded as in sections 3.3 and 3.4 of IEEE
754-2019, for the small format and for the double alike.

**Resume.** A report is its table and its manifest. Runs form a family: each may resume from the report of
any earlier one. A task that finishes is known by its status and by how many of its cases passed.

**Leases.** Lock-protected methods are atomic steps; memory readings are an arbitrary oracle.

## What the code does not guarantee

Where a promise does not hold of the code, the exact condition under which it does is proved, and an input or
a run that breaks it is given.

- A float format with IEEE 754 infinities and one exponent bit has only subnormal finite values, and the
  computed maximum is above all of them. The format `float8_e8m0fnu`, which has no mantissa bit to take a
  unit from, gets minus infinity (`ScalarTypeMax.MaxIsLargest`, `ScalarTypeMax.BorrowGivesMinusInfinity`).
- Waking an allocation up while an error is pending fails, and the handle of its first chunk is lost if the
  driver creates it. Whatever the driver does, an operation loses no handle if and only if it is no such wake
  (`CumemCounts.NothingLeaked`, `CumemLost.LeakingRun`).
- Freeing an allocation keeps its range reserved for good unless the caller names the rounded size and nothing
  is mapped in it. Trimming one does unless its address was lost before: the placeholder is reserved again.
  Whatever the driver does, an operation strands no range if and only if it is neither
  (`CumemCounts.NothingStranded`); runs are counted by `CumemCounts.RunCounts`.
- An allocation whose address cannot be reserved again while it falls asleep stays in the registry as a
  sleeper. Waking it up maps its chunks into whatever reservation of somebody else has come to lie there,
  which cannot wake up any more. Others are kept out exactly as long as no lost address is woken up while all
  its chunks lie in reserved, unmapped addresses (`CumemClean.SquattersStayOut`); `CumemLost.LosingRun` is a
  run of five operations that ends badly.
- A failed malloc leaves a registry entry that looks awake, and so does a `discard` that raises. Putting
  such an entry to sleep or freeing it takes chunks back that are not its own any more. Driver and registry
  stay consistent exactly if these meet no mapping and no handle in use (`CumemSafety.SoundUnlessWild`);
  `CumemLost.WildRun` is a run in which they do. An operation that avoids all of this, and no other,
  leaves a clean state clean (`CumemClean.StaysClean`).
- Rounding to the granularity is right exactly when the intermediate sum fits in 64 bits
  (`Chunks.AlignUpExact`), and the tiles of an all-reduce cover the message exactly when its size fits in 32
  (`Launches.TilesCoverMessage`).
- The offset of the second data phase is a 32-bit number, but any positive 64-bit phase size is accepted.
  Slots of a launch share no byte exactly when every truncated row of the second phase keeps clear of the
  flags and the first phase (`Launches.SlotsAreDisjoint`). Without truncation that means that one phase's tiles
  fit in the phase size, as they do in the default one; at any multiple of 2^32 the phases coincide
  (`Launches.WithoutTruncation`, `Launches.DefaultPhaseIsSafe`, `Launches.PhasesCoincide`).
- The size of the buffer is fixed by the first initialisation in a process. A buffer made for its own phase
  size holds every slot exactly if the tiles of one phase fit; a later initialisation with a larger phase size
  can overrun it (`Launches.OwnBufferFits`, `Launches.BufferIsLargeEnough`, `Launches.LaterInitOverruns`).
- The log reader does not keep the longest run of lines that may be one build: a command with
  other times discards all lines above it, not only those up to its last occurrence. The result is longest
  exactly if the last reset was caused by an end time, or the line above it is contradicted too
  (`NinjaLog.LongestSuffix`, `NinjaLog.LinesLost`).
- The resume index strips the tags it reads but not those it looks up. A model whose name differs from
  another's only by leading white space can cause that other one, with the same path, to be skipped without
  ever having run. Over all families of resumed runs this is the only way (`ResumeChain.SafeToResume`).
- The documentation of the batched tests says that only results with an accuracy of 100 % are skipped. The
  ratio is printed with six significant digits, so from two million cases on a failure can hide in it
  (`ResumeChain.FullPassMeans`).

## Model

| member | source | states |
|---|---|---|
| `Chunks.MemCreateChunkSize` | csrc/cumem_allocator.cpp:25-43 | a setting whose megabytes fit in 64 bits and are not zero is the chunk size, any other gives the default; either way it is a positive whole number of megabytes that fits |
| `Chunks.AlignUpExact` | csrc/cumem_allocator.cpp:343 | the expression is the least multiple of the granularity that is not below the request, if and only if its sum does not wrap |
| `Chunks.AlignUpFixed` | csrc/cumem_allocator.cpp:343 | a size that is already rounded is not changed |
| `Chunks.SplitIsExact` | csrc/cumem_allocator.cpp:368-393 | chunks are positive multiples of the granularity, all but the last are full, chunk i starts at i full chunks, and the sizes add up to the whole |
| `Chunks.OffsetIncreases` | csrc/cumem_allocator.cpp:184-203 | the running offsets at which chunks are mapped never overlap |
| `CumemDriver.Driver.MemAddressReserve` | csrc/cumem_allocator.cpp:50-71 | a reservation is free, nonzero and aligned, at an address of the driver's choosing, or nothing changes; a refusal is counted, and so is a wish that was passed over |
| `CumemDriver.Driver.MemAddressFree` | csrc/cumem_allocator.cpp:558-560 | succeeds exactly for a whole reservation with nothing mapped in it |
| `CumemDriver.Driver.MemCreate` | csrc/cumem_allocator.cpp:174-183 | a new handle of the given size, or no change and one refusal |
| `CumemDriver.Driver.MemMap` | csrc/cumem_allocator.cpp:185-203 | maps only a live handle of that size into a reserved, unmapped range; declining to is counted as a refusal |
| `CumemState.Enter` | csrc/cumem_allocator.cpp:345-431 | a range of its own may be entered as a sleeping allocation, also over a stale entry for that address |
| `CumemState.EnterFailed` | csrc/cumem_allocator.cpp:414-447 | a failed allocation leaves an entry that looks awake, without a reservation; the rest stays consistent |
| `CumemState.LoseHome` | csrc/cumem_allocator.cpp:643-705 | an entry without chunks may lose its reservation |
| `CumemState.Forget` | csrc/cumem_allocator.cpp:558-560 | striking an entry off keeps consistency; a reservation that is still there is stranded |
| `CumemState.Wake` | csrc/cumem_allocator.cpp:771-773 | new handles mapped at a sleeping entry keep consistency, also if its address was lost |
| `CumemState.Unload` | csrc/cumem_allocator.cpp:219-270 | taking back one live entry's chunks keeps consistency and no other entry loses anything |
| `CumemMeaning.AwakeIsBacked` | csrc/cumem_allocator.cpp:119-217 | every byte of a live allocation is covered by exactly one mapping, to a live handle of the chunk's size |
| `CumemMeaning.OwnerOfMapping` | csrc/cumem_allocator.cpp:184-203 | every mapping of the driver is a chunk of some live allocation, inside its range |
| `CumemMeaning.OwnerOfHandle` | csrc/cumem_allocator.cpp:174-183 | every handle of the driver is a cell of some live allocation, or leaked |
| `CumemMeaning.OwnRange` | csrc/cumem_allocator.cpp:229-270 | when a live allocation is unloaded its whole range is unmapped, so the reservation can be given back |
| `CumemMeaning.UnreservedIsUnmapped` | csrc/cumem_allocator.cpp:345-356 | nothing is mapped in a range that is not reserved |
| `CumemMeaning.IntruderSquats` | csrc/cumem_allocator.cpp:771-773 | whatever is mapped in the reservation of an entry that is not live belongs to an entry whose own address was lost |
| `CumemMeaning.AsleepIsUnmapped` | csrc/cumem_allocator.cpp:643-705 | a sleeping allocation keeps its reservation, and unless a lost address was woken up nothing is mapped in it |
| `CumemMeaning.VacantIsSomebodys` | csrc/cumem_allocator.cpp:771-773 | the places where a lost address could be mapped lie in a stranded reservation, or in that of an entry that is asleep or dead |
| `CumemMeaning.PhysicalBytes` | csrc/cumem_allocator.cpp:323-786 | live physical bytes are the aligned sizes of the live allocations plus the leaked handles |
| `CumemRuns.DeadUnloading` | csrc/cumem_allocator.cpp:219-270 | consistency survives taking back the chunks of a dead entry exactly when they meet no mapping and no handle in use |
| `CumemSafety.FollowsKeeps` | csrc/cumem_allocator.cpp:323-786 | every malloc, free, sleep, discard, trim and wake keeps driver and registry consistent, whatever fails in it, unless it is wild |
| `CumemSafety.WildBreaks` | csrc/cumem_allocator.cpp:219-270 | a wild operation takes a mapping or a handle away from an entry that stays registered as awake |
| `CumemSafety.SoundUnlessWild` | csrc/cumem_allocator.cpp:323-786 | driver and registry stay consistent if and only if the operation is not wild |
| `CumemSafety.FollowsAccounts` | csrc/cumem_allocator.cpp:323-786 | after every operation, wild or not, each reservation is that of an entry that has not lost it, with its size, or stranded |
| `CumemSafety.RunsKeep` | csrc/cumem_allocator.cpp:323-786 | the moments of a run up to any point are all consistent if and only if no operation before was wild |
| `CumemSafety.RunsAccount` | csrc/cumem_allocator.cpp:323-786 | over every run all reservations stay accounted for |
| `CumemCounts.StepCounts` | csrc/cumem_allocator.cpp:454-786 | one operation adds a stranded range exactly if it is a free that the driver does not accept or a trim that keeps its placeholder; the leaked handles after it and those released with a dead entry are those before, and one more if a stale wake created a handle |
| `CumemCounts.RunCounts` | csrc/cumem_allocator.cpp:454-786 | over any run, wild or not, the stranded ranges grow by the number of such operations; up to a wild one, the leaked handles by the number of handles so created less those released with dead entries |
| `CumemCounts.NothingStranded` | csrc/cumem_allocator.cpp:558-560 | an operation strands no range, whatever the driver does, if and only if it is not the free of an address at home with a size or contents that keep the range, nor the trim of an address at home |
| `CumemCounts.NothingLeaked` | csrc/cumem_allocator.cpp:174-183 | an operation adds no leaked handle, whatever the driver does, if and only if it is not a wake with an error pending |
| `CumemClean.SquattersTrespass` | vllm_metax/device_allocator/cumem.py:346-352 | only waking a lost address in reserved, unmapped addresses puts chunks into somebody else's reservation |
| `CumemClean.MappableIfVacant` | csrc/cumem_allocator.cpp:184-203 | the driver lets all chunks of an entry be mapped, one after the other, exactly when all their places are reserved and unmapped at the start |
| `CumemClean.SquattersStayOut` | vllm_metax/device_allocator/cumem.py:346-352 | an operation keeps everybody out of others' reservations, whatever the driver does, if and only if it is no such wake |
| `CumemClean.StaysClean` | csrc/cumem_allocator.cpp:323-786 | from a clean state every outcome of an operation is consistent and clean, if and only if it is neither wild, nor strands, nor wakes with an error pending, nor trespasses: a condition on the state before it |
| `CumemClean.CleanRuns` | csrc/cumem_allocator.cpp:323-786 | a run without such operations leaves nothing stranded, nothing leaked and nobody in others' addresses, however often creating, mapping and reserving fails |
| `CumemClean.CleanMeans` | csrc/cumem_allocator.cpp:323-786 | then every reservation has its entry, live bytes are exactly those of the live allocations, and nothing is mapped where an entry is not live |
| `CumemClean.OnlyMisSizedFreesStrand` | csrc/cumem_allocator.cpp:558-560 | without squatters a free strands its range if and only if the caller's size is not the rounded one |
| `CumemObliging.ObligedStep` | vllm_metax/device_allocator/cumem.py:189-352 | if the driver refuses nothing, every operation on a healthy state takes its full effect: a new awake allocation, the range given back, asleep at home, awake again; and the state stays healthy |
| `CumemObliging.ObligedRun` | vllm_metax/device_allocator/cumem.py:189-352 | a run of such operations in which nothing is refused, each of which takes its full effect |
| `CumemObliging.SleepThenWake` | vllm_metax/device_allocator/cumem.py:257-352 | sleeping and waking up gives back the same allocation at the same address with as many live bytes |
| `CumemLost.VictimIsStuck` | csrc/cumem_allocator.cpp:184-203 | with somebody else's chunk in its range a sleeping allocation can never be woken up, and freeing it strands the range |
| `CumemLost.LosingRun` | vllm_metax/device_allocator/cumem.py:278-352 | a run of five operations, each of which the driver may take, from the empty state to such a chunk |
| `CumemLost.LeakingRun` | csrc/cumem_allocator.cpp:174-183 | a run of four operations after which a handle is live that nobody remembers |
| `CumemLost.WildRun` | vllm_metax/device_allocator/cumem.py:301-318 | a run that reaches a wild operation, after which an allocation in use is mapped to a handle that is gone |
| `CumemAllocator.Allocator.constructor` | csrc/cumem_allocator.cpp:83-85 | starts consistent, without an error, an allocation, a stranded range or a leaked handle |
| `CumemAllocator.Allocator.ReserveRocmAddress` | csrc/cumem_allocator.cpp:50-71 | success gives an aligned free range and failure leaves the driver as it was; with an alignment it fails only after a second attempt was refused too, or offered a misaligned address |
| `CumemAllocator.Allocator.ReleaseCells` | csrc/cumem_allocator.cpp:177-181 | releases the handles of the first cells, those among them that are live, and reports no error exactly if all are live and distinct |
| `CumemAllocator.Allocator.UnmapChunks` | csrc/cumem_allocator.cpp:189-195 | removes exactly the mappings found at the running offsets with the chunk's size, and reports an error exactly if one is missing |
| `CumemAllocator.Allocator.CreateChunks` | csrc/cumem_allocator.cpp:174-183 | without a pending error all handles are created exactly if none is refused, and a refusal at any index leaves the handles as before; a stale error code loses the first handle |
| `CumemAllocator.Allocator.MapChunks` | csrc/cumem_allocator.cpp:184-203 | all chunks are mapped at their offsets exactly if all places were vacant and none is refused; otherwise no mapping is left and all handles are released |
| `CumemAllocator.Allocator.CreateAndMap` | csrc/cumem_allocator.cpp:119-217 | succeeds exactly if no error is pending, every place is vacant and nothing is refused; without a pending error a failure changes nothing |
| `CumemAllocator.Allocator.UnmapAndRelease` | csrc/cumem_allocator.cpp:219-270 | takes back what is found of the given chunks, whoever owns it, and reports no error exactly if all of them are there |
| `CumemAllocator.Allocator.FillChunkSizes` | csrc/cumem_allocator.cpp:371-393 | the array holds the exact split of the aligned size |
| `CumemRuns.FitsMeans` | csrc/cumem_allocator.cpp:343-393 | no rounding wraps if and only if both sizes are rounded up rightly and together fit in 64 bits; sizes that leave room for two granules always do |
| `CumemAllocator.MallocShape` | csrc/cumem_allocator.cpp:343-393 | if no rounding wraps, the chunks are positive, add up to the aligned size and there is at least one |
| `CumemAllocator.Allocator.MyMalloc` | csrc/cumem_allocator.cpp:323-451 | unless something is refused, an error is pending or the size is zero, one live allocation of the rounded size; failure leaves the driver as it was and, after the callback, the entry that it wrote |
| `CumemAllocator.Allocator.MyFree` | csrc/cumem_allocator.cpp:454-571 | the entry is gone, its chunks are taken back, and the range is given back exactly when it is reserved with the caller's size and empty |
| `CumemAllocator.Allocator.Unload` | csrc/cumem_allocator.cpp:219-270 | strips the driver of the chunks of any entry believed awake, with no new error exactly if all of them are there |
| `CumemAllocator.Allocator.PythonUnmapAndRelease` | csrc/cumem_allocator.cpp:599-718 | unloads the entry and keeps the same reservation unless the driver refuses it again, and says whether it raised |
| `CumemAllocator.Allocator.FallAsleep` | vllm_metax/device_allocator/cumem.py:257-281 | one entry of `sleep`, wild or not: marked as asleep even if unloading it raised, which is reported exactly |
| `CumemAllocator.Allocator.DiscardOne` | vllm_metax/device_allocator/cumem.py:301-318 | one entry of `discard`, wild or not: marked as asleep only if nothing was raised |
| `CumemAllocator.Allocator.TrimOne` | vllm_metax/device_allocator/cumem.py:413-417 | an unused allocation of a pool, wild or not: struck off the registry and unmapped, with its placeholder left behind |
| `CumemAllocator.Allocator.PythonCreateAndMap` | csrc/cumem_allocator.cpp:720-786 | wakes the entry up exactly if no error is pending, its places are vacant and nothing is refused; otherwise it stays asleep, and a pending error costs a handle exactly if the driver creates it |
| `CumemAllocator.Allocator.Apply` | vllm_metax/device_allocator/cumem.py:189-352 | every operation, wild or not, as the Python side issues it, is a step of the state machine |
| `CumemAllocator.Allocator.Run` | vllm_metax/device_allocator/cumem.py:189-417 | any sequence of operations, on known and unknown, lost and half-created addresses and with any failures, is a run of the state machine, to which the theorems of `CumemSafety`, `CumemCounts` and `CumemClean` apply |
| `TwoShot.FreshFlag0` | csrc/quickreduce/quick_reduce_impl.cuh:609-633 | a first-phase flag has the awaited colour exactly when it was raised for this tile, and then the data behind it is this tile's |
| `TwoShot.FreshFlag1` | csrc/quickreduce/quick_reduce_impl.cuh:651-669 | the same for the second phase, even if the sender is already one tile ahead |
| `TwoShot.StepKeepsInv` | csrc/quickreduce/quick_reduce_impl.cuh:585-669 | every step of every rank keeps the protocol invariant |
| `TwoShot.EveryOutputIsTheReduction` | csrc/quickreduce/quick_reduce_impl.cuh:585-669 | under every interleaving, every tile that any rank has finished is the sum of all ranks' shares in rank order |
| `TwoShot.SlowestCanStep` | csrc/quickreduce/quick_reduce_impl.cuh:602-669 | no deadlock: the rank that is furthest behind is never waiting |
| `TwoShot.StuckMeansDone` | csrc/quickreduce/quick_reduce_impl.cuh:585-669 | a run that cannot go on has delivered every tile to every rank |
| `TwoShot.RunsAreFinite` | csrc/quickreduce/quick_reduce_impl.cuh:585-669 | no interleaving takes more than six steps per rank, peer and tile |
| `GroupReduce.PowerDoubles` | csrc/quickreduce/base.h:345-354 | the doubling loop meets any power-of-two group size exactly |
| `GroupReduce.LaneStep` | csrc/quickreduce/base.h:348-354 | one shuffle doubles the window of lanes that a lane's registers summarise |
| `GroupReduce.ExtremesGiveAbsMax` | csrc/quickreduce/base.h:188-212 | of maximum and minimum, the one of greater magnitude, the minimum on a tie, has the greatest magnitude of all and is the least that has it |
| `GroupReduce.LeaderValue` | csrc/quickreduce/base.h:355 | a leader's packed value is, in each half, the least element of greatest magnitude of its group |
| `GroupReduce.GroupAbsMax` | csrc/quickreduce/base.h:329-359 | for any power-of-two group size and any number of whole groups, every lane receives its leader's value, in each half the least element of greatest magnitude of its own group |
| `Launches.TilesCoverMessage` | csrc/quickreduce/quick_reduce.h:216-217 | the tiles are as many as the size modulo 2^32 needs; they cover the message if and only if its size fits in 32 bits, and then none is superfluous |
| `Launches.EachTileOnce` | csrc/quickreduce/quick_reduce.h:27-39 | every tile is visited by exactly one block in exactly one iteration |
| `Launches.TilesInRange` | csrc/quickreduce/quick_reduce.h:34-39 | no block visits a tile beyond the message |
| `Launches.DeviceComms.constructor` | csrc/quickreduce/quick_reduce.h:139-147 | every slot starts at colour 1 |
| `Launches.DeviceComms.KernelBlock` | csrc/quickreduce/quick_reduce.h:22-44 | a block visits its stride of tiles with consecutive colours, stores the next one, and touches no other slot |
| `Launches.DeviceComms.AllReduce` | csrc/quickreduce/quick_reduce.h:207-240 | raises each error for exactly its unsupported worlds and levels, without touching a counter; otherwise each launched block has a tile, at most the maximal number of blocks is launched, and a block has a second tile only if that many are; slot b advances by its number of tiles |
| `Launches.DeviceComms.Replay` | csrc/quickreduce/quick_reduce.h:30-43 | after any sequence of launches, rejected ones included, of whatever sizes, types and levels, the counters depend on the launches only, so ranks agree, and equal the protocol's colour for the next tile |
| `Launches.ColoursStayFresh` | csrc/quickreduce/quick_reduce.h:30-39 | no colour repeats within 2^32 tiles of a slot, and the cleared value 0 is first met after 2^32 - 1 of them |
| `Launches.SlotInTable` | csrc/quickreduce/quick_reduce_impl.cuh:586-600 | every flag of both phases and every first-phase tile lies in its own table |
| `Launches.SlotsAreDisjoint` | csrc/quickreduce/quick_reduce_impl.cuh:586-600 | no two flags or tiles of a launch share a byte, if and only if every row of the second phase, at its 32-bit offset, keeps clear of the flags in use and of the first phase |
| `Launches.OverlapWitness` | csrc/quickreduce/quick_reduce_impl.cuh:588-590 | a second-phase row that does not keep clear shares a byte with a flag in use or with a first-phase tile |
| `Launches.SecondRowsApart` | csrc/quickreduce/quick_reduce_impl.cuh:588-590 | rows of the second phase never overlap each other, also where their offsets wrap around |
| `Launches.WithoutTruncation` | csrc/quickreduce/quick_reduce_impl.cuh:588-590 | while the second phase ends below 2^32, that is the case if and only if one phase's tiles fit in the phase size |
| `Launches.DefaultPhaseIsSafe` | csrc/quickreduce/quick_reduce.h:98-99 | with the default phase size of 2 GiB no launch has overlapping slots |
| `Launches.PhasesCoincide` | csrc/quickreduce/quick_reduce_impl.cuh:588-590 | at a phase size that is a multiple of 2^32 each second-phase tile lies exactly on its first-phase twin |
| `Launches.SecondPhaseOnFlags` | csrc/quickreduce/quick_reduce_impl.cuh:588-590 | at 2^32 less the size of the flags the second phase lies on the flags |
| `Launches.SlotsInBuffer` | csrc/quickreduce/quick_reduce.h:127-131 | every flag and tile of a launch ends within a buffer, if and only if the first phase and each row of the second, at its 32-bit offset, does |
| `Launches.BufferIsLargeEnough` | csrc/quickreduce/quick_reduce.h:127-131 | while the second phase ends below 2^32, that is so if and only if the phase size and one phase of tiles fit into twice the phase size of the first initialisation |
| `Launches.OwnBufferFits` | csrc/quickreduce/quick_reduce.h:127-131 | a buffer made for the phase size in use holds every slot, truncated or not, if and only if one phase of tiles fits in it |
| `Launches.LaterInitOverruns` | csrc/quickreduce/quick_reduce.h:124-131 | after a first initialisation with 1 GiB per phase, every launch with the default size overruns the buffer |
| `LaunchBoundary.RanksStayClose` | csrc/quickreduce/quick_reduce_impl.cuh:585-669 | a rank that has begun a launch is at most in its first tile and first phase while another has not finished the launch before, and that one has read all of the first phase |
| `LaunchBoundary.ApartWhenClear` | csrc/quickreduce/quick_reduce_impl.cuh:586-600 | first-phase slots of a launch and second-phase slots of the one before, with other tile and grid sizes, share no byte if and only if each earlier row keeps clear of the later first phase |
| `LaunchBoundary.NextLaunchIsSafe` | csrc/quickreduce/quick_reduce_impl.cuh:585-669 | then nothing that a rank writes in a launch, in any block, hits a byte that another has still to read in the launch before, in any block |
| `LaunchBoundary.ClearWithoutTruncation` | csrc/quickreduce/quick_reduce_impl.cuh:588-590 | while the earlier second phase ends below 2^32, that is so if and only if the later tiles fit in the phase size |
| `LaunchBoundary.DefaultBoundaryIsClear` | csrc/quickreduce/quick_reduce.h:98-99 | with the default phase size any two launches may follow each other |
| `NinjaSpec.ChargesAreBusyTime` | tools/report_build_time_ninja.py:222-255 | conservation: the charges of all steps add up to the time during which some step runs |
| `NinjaSpec.BusyUpToElapsed` | tools/report_build_time_ninja.py:210-221 | busy time is at most the elapsed time, with equality exactly when no instant was idle |
| `NinjaSpec.FullChargeBounds` | tools/report_build_time_ninja.py:75-90 | a charge lies between the duration divided by the number of steps and the duration |
| `NinjaSpec.FullChargeIsAll` | tools/report_build_time_ninja.py:75-90 | a step is charged its whole duration if and only if no other one ever runs together with it |
| `NinjaEvents.ScheduleIsRight` | tools/report_build_time_ninja.py:213-229 | the sorted list holds the start and the stop of every step once each, by time, starts before stops |
| `NinjaEvents.TimesAreGrid` | tools/report_build_time_ninja.py:224-229 | between two consecutive events nothing starts or stops |
| `NinjaEvents.RunningIsSpanning` | tools/report_build_time_ninja.py:239-255 | over a stretch of positive length the steps in the dictionary are exactly those that run throughout it |
| `NinjaEvents.NextEvent` | tools/report_build_time_ninja.py:246-255 | a stop always finds its step running, also with ties and steps of no length |
| `NinjaSweep.Target.SetWeightedDuration` | tools/report_build_time_ninja.py:71-73 | sets the charge of this step only |
| `NinjaSweep.Target.WeightedDuration` | tools/report_build_time_ninja.py:75-90 | returns the charge under the condition that the code asserts |
| `NinjaSweep.DivisorIsRight` | tools/report_build_time_ninja.py:241-245 | the size of the dictionary is the number of steps running throughout the stretch |
| `NinjaSweep.SweepStep` | tools/report_build_time_ninja.py:239-256 | one event keeps, for every step, accumulator minus entry value equal to its specified charge so far |
| `NinjaSweep.SweepEnd` | tools/report_build_time_ninja.py:257 | at the end nothing runs, every charge is the specified one and the total is the busy time |
| `NinjaSweep.Collect` | tools/report_build_time_ninja.py:208-222 | finds the events, the earliest start, the latest end and the total duration |
| `NinjaSweep.Sweep` | tools/report_build_time_ninja.py:230-257 | the single pass gives every step exactly its specified charge |
| `NinjaSweep.TotalIsBounded` | tools/report_build_time_ninja.py:221-255 | the total charge is at most the length of the build, and all of it exactly when it was never idle |
| `NinjaSweep.TotalAndDurations` | tools/report_build_time_ninja.py:212-255 | the charges add up to at most the sum of all durations, and to all of it exactly when no two steps run together |
| `NinjaSweep.SummarizeEntries` | tools/report_build_time_ninja.py:199-257 | specified charges, conservation against the length of the build, the sum of all durations with equality exactly when no two steps run together, and bounds under which the assertion cannot fire |
| `NinjaLog.LastBuildIsSuffix` | tools/report_build_time_ninja.py:125-144 | the last build is a suffix of the well-formed lines, is one build, and the build before it could not have gone on |
| `NinjaLog.BuildFromReset` | tools/report_build_time_ninja.py:125-144 | going through the log with the two tests alone, restarting where one fails, gives the same build |
| `NinjaLog.LongestSuffix` | tools/report_build_time_ninja.py:125-144 | the last build begins at the line where the loop last started over; it is the longest suffix that may be one build, if and only if there is no such line, or its end went back, or the command of the line above it recurs from there on with other times |
| `NinjaLog.LinesLost` | tools/report_build_time_ninja.py:125-144 | three lines of which the last one is kept although the last two may be one build |
| `NinjaLog.CoherenceTest` | tools/report_build_time_ninja.py:125-144 | the two tests of the loop together decide whether a line may belong to the same build |
| `NinjaLog.EveryNameOnce` | tools/report_build_time_ninja.py:145-148 | the groups together are exactly the lines: every output name is listed under its own command, once per line |
| `NinjaLog.EndsInOrder` | tools/report_build_time_ninja.py:125-132 | the groups come in the order of their end times |
| `NinjaLog.ReadTargets` | tools/report_build_time_ninja.py:105-149 | the result is the last build (or all of the log) grouped by command: one pair of times, in seconds of a thousand of the log's units, and the names in log order for each |
| `NinjaLog.AddLine` | tools/report_build_time_ninja.py:121-148 | one line extends the build or starts a new one, as the greedy specification says |
| `ScalarTypeId.UnpackOfPack` | csrc/core/scalar_type.hpp:134-164 | unpacking the packed members gives them back, for every list of fields of at most 64 bits and every value that fits, negative ones included |
| `ScalarTypeId.PackOfUnpack` | csrc/core/scalar_type.hpp:134-164 | packing what was unpacked from any 64-bit pattern gives its low bits, as many as the fields have |
| `ScalarTypeId.PackIsNumber` | csrc/core/scalar_type.hpp:138-147 | the fold is the mixed-radix number of the members in two's complement |
| `ScalarTypeId.UnpackIsDigits` | csrc/core/scalar_type.hpp:153-161 | the fold reads the digits of the pattern, also when the id is negative |
| `ScalarTypeId.FromIdOfId` | csrc/core/scalar_type.hpp:134-164 | every type survives the way through its id, which is nonnegative and has 58 bits |
| `ScalarTypeId.IdOfFromId` | csrc/core/scalar_type.hpp:134-164 | every 64-bit number names a type, whose id is the number's low 58 bits |
| `ScalarTypeId.IdsAreTheSmallNumbers` | csrc/core/scalar_type.hpp:126-147 | a 64-bit number is the id of a type exactly when it is in [0, 2^58) |
| `ScalarTypeId.IdsDecideEquality` | csrc/core/scalar_type.hpp:307-312 | two types have the same id exactly when they are equal in every member |
| `ScalarTypeId.IdLayout` | csrc/core/scalar_type.hpp:126-147 | where each member sits in an id: exponent and mantissa in the two lowest bytes, then the sign flag, 32 bits of bias, a flag and a byte |
| `ScalarTypeMax.PatternOrder` | csrc/core/scalar_type.hpp:185-217 | values of a format are ordered as their patterns, subnormal ones included |
| `ScalarTypeMax.CodeParts` | csrc/core/scalar_type.hpp:189-212 | with a mantissa to take from, no step of the 64-bit arithmetic wraps |
| `ScalarTypeMax.Widen` | csrc/core/scalar_type.hpp:206-217 | rebiasing the exponent and shifting the mantissa keep the value |
| `ScalarTypeMax.MaxValue` | csrc/core/scalar_type.hpp:185-220 | the result is a positive normal double with the value of the format's top normal pattern |
| `ScalarTypeMax.TopPatternIsLargest` | csrc/core/scalar_type.hpp:189-199 | that value bounds every finite pattern and is attained |
| `ScalarTypeMax.MaxIsLargest` | csrc/core/scalar_type.hpp:185-220 | the formats rejected are exactly those beyond a double, and for the others the result is the largest finite value if and only if the format is neither IEEE with one exponent bit nor without a mantissa bit to spare |
| `ScalarTypeMax.NotAttained` | csrc/core/scalar_type.hpp:194-209 | with one IEEE exponent bit the result lies strictly above every finite value |
| `ScalarTypeMax.BorrowGivesMinusInfinity` | csrc/core/scalar_type.hpp:189-217 | without a mantissa bit to spare the result is the pattern of minus infinity |
| `ScalarTypeMax.MinIsNegatedMax` | csrc/core/scalar_type.hpp:232-242 | the minimum is the maximum with the sign set: a normal double of exactly the opposite value; unsigned types are rejected |
| `ScalarTypeMax.OneMeansOne` | csrc/core/scalar_type.hpp:202-209 | in every format with at least two exponent bits the middle exponent with an empty mantissa means one |
| `ScalarTypeMax.FieldsMean` | csrc/core/scalar_type.hpp:189-217 | exponents double, mantissas divide evenly, subnormals continue to zero; together with the pattern of one this fixes every value |
| `ScalarTypeMax.MaxInClosedForm` | csrc/core/scalar_type.hpp:185-220 | the result is one unit in the last place below twice the largest power of two, two units where the last pattern is the NaN, in whole numbers |
| `ScalarTypeMax.NamedMaxima` | csrc/core/scalar_type.hpp:326-338 | the results for the named small formats: 6, 28, 7.5, 448, 57344 and 65504 |
| `Labels.DedupeKeepsOneEach` | tools/batched_test/launch.py:526-528 | exactly one of the given tasks is kept for each configuration |
| `Labels.TagsAreDistinct` | tools/batched_test/launch.py:523-537 | the tags of a report are distinct if and only if no two configurations of one name share twelve digits |
| `Labels.PlainTagWhenAlone` | tools/batched_test/launch.py:529-537 | a configuration keeps its plain name as tag exactly when no other one has that name |
| `Labels.NumberedTag` | tools/batched_test/launch.py:529-537 | otherwise the tag is the name, a number sign and the first twelve digits of the fingerprint |
| `Labels.DedupeOrder` | tools/batched_test/launch.py:526-528 | configurations stay in the order of their first task, and of each the last task is kept |
| `Resume.ResumeIndex.constructor` | tools/batched_test/reporting.py:77-88 | looking a tag up gives the report's rows with that stripped tag, in order |
| `Resume.ResumeIndex.ShouldSkip` | tools/batched_test/reporting.py:90-111 | skips exactly when there are rows, the manifest agrees and every row is a full success of the same model |
| `Resume.CsvReport.constructor` | tools/batched_test/reporting.py:115-142 | the manifest maps the tag of every planned task to a fingerprint, and the table is empty |
| `Resume.CsvReport.Write` | tools/batched_test/reporting.py:144-158 | appends the row of this result and changes nothing else |
| `Resume.Partition` | tools/batched_test/launch.py:489-491 | the two lists are the planned tasks to run and to skip, in order |
| `Resume.EachFutureOnce` | tools/batched_test/launch.py:308-316 | exactly the futures that complete are yielded, in that order, and none twice |
| `Resume.RunTasks` | tools/batched_test/launch.py:294-320 | a row is written for each future when it completes, until none is pending or the batch is interrupted |
| `Resume.RunInference` | tools/batched_test/launch.py:476-521 | the report is the specified one: skipped rows, then a row for each task that finished |
| `ResumeChain.FullPassMeans` | tools/batched_test/reporting.py:43-47 | the ratio reads as 100 exactly when at most one case in two million failed; below two million cases, when none did |
| `ResumeChain.RowIsGood` | tools/batched_test/reporting.py:24-50 | a written row counts as a success exactly for a skipped or fully passed task of that model |
| `ResumeChain.SplitTasks` | tools/batched_test/launch.py:490-491 | every planned task is in exactly one of the two lists, according to the index |
| `ResumeChain.RowOrigin` | tools/batched_test/launch.py:507-518 | every row belongs to a planned task that was skipped or executed, and says so truthfully |
| `ResumeChain.RowExists` | tools/batched_test/launch.py:507-518 | every skipped or executed task has its row |
| `ResumeChain.RowTells` | tools/batched_test/reporting.py:24-50 | what a row tells: tag and path of a planned task, which of status and phase the execution ended in, stage by stage, and its share of passed cases |
| `ResumeChain.ManifestOf` | tools/batched_test/reporting.py:123-130 | with distinct tags the manifest has every task's own fingerprint |
| `ResumeChain.SkipIsSettled` | tools/batched_test/reporting.py:90-111 | a task skipped on the strength of a report was skipped or passed in full by the run that wrote it, with the same tag, fingerprint and path |
| `ResumeChain.SettledIsSkipped` | tools/batched_test/reporting.py:90-111 | and conversely |
| `ResumeChain.SkippedExactlyWhenCertified` | tools/batched_test/reporting.py:76-111 | over any family of resumed runs a task is skipped if and only if the reports lead back, run by run, to one that passed it in full |
| `ResumeChain.SkippedWasPassed` | tools/batched_test/reporting.py:76-111 | every skipped task was executed by an earlier run of the family with the same fingerprint and passed in full |
| `ResumeChain.OrdinaryTagsAreApart` | tools/batched_test/launch.py:523-537 | names without leading white space and distinct twelve-digit prefixes meet the conditions of these theorems |
| `ResumeChain.SafeToResume` | tools/batched_test/reporting.py:77-93 | over all families of runs of some batches, resumed from one another in any way, nothing is skipped that was not executed and passed before, if and only if no task looks like another one of its batch, by white space in front of a tag and with the same model, that is planned again |
| `LeaseBook.Grant` | tools/batched_test/gpu_manager.py:104-110 | granting free ids keeps outstanding leases disjoint and the taken set exact |
| `LeaseBook.Return` | tools/batched_test/gpu_manager.py:112-119 | releasing a lease takes ids from no other lease |
| `LeaseBook.TakenIsHeld` | tools/batched_test/gpu_manager.py:95-119 | as many ids are taken as the outstanding leases hold together |
| `Leases.FreeGpusAre` | tools/batched_test/gpu_manager.py:80-93 | the list is ascending and holds exactly the idle, unreserved devices |
| `Leases.GPUManager.GetFreeGpuIndices` | tools/batched_test/gpu_manager.py:80-93 | the loop computes that list |
| `Leases.GPUManager.Allocate` | tools/batched_test/gpu_manager.py:95-110 | an error for too many, nothing if too few are free, else the first ones, which become reserved |
| `Leases.GPUManager.Release` | tools/batched_test/gpu_manager.py:112-119 | exactly the given devices are no longer reserved |
| `Leases.ResourceLease.Release` | tools/batched_test/resources.py:32-35 | the first release gives the devices back, later ones do nothing |
| `Leases.LocalBackend.Allocate` | tools/batched_test/resources.py:50-57 | a lease exactly when the request can be granted; the backend moves as its state machine does |
| `Leases.LocalBackend.Release` | tools/batched_test/resources.py:32-35 | a release moves the backend as its state machine does, on whichever lease and however often |
| `Leases.GrantedLease` | tools/batched_test/resources.py:50-57 | a lease has the size asked for, and only existing idle devices that nobody holds |
| `Leases.RefusedForWantOfDevices` | tools/batched_test/gpu_manager.py:101-108 | whenever enough idle unreserved devices exist the request is granted |
| `Leases.EveryRunIsConsistent` | tools/batched_test/resources.py:32-57 | over every interleaving, outstanding leases are disjoint, their union is the occupied set, sizes add up, and all released means none occupied |
| `Leases.SecondReleaseChangesNothing` | tools/batched_test/resources.py:32-35 | releasing an old lease again never changes anything, whatever was granted in between |
| `Leases.HeldUntilReleased` | tools/batched_test/resources.py:32-57 | until its own release a lease keeps its devices, and nobody else is ever granted one of them |
| `Leases.OnlyExistingDevices` | tools/batched_test/gpu_manager.py:80-110 | over every interleaving, whatever is leased is a device of the machine, so never more of them are leased than it has |
| `ClusterLeases.MPClusterManager.GetFreeNodes` | tools/batched_test/mp_manager.py:197-198 | the nodes not reserved, in inventory order |
| `ClusterLeases.MPClusterManager.Allocate` | tools/batched_test/mp_manager.py:200-214 | nothing while node 0 is taken or too few nodes are free, else enough whole nodes, which become reserved |
| `ClusterLeases.MPClusterManager.Release` | tools/batched_test/mp_manager.py:242-245 | exactly the given nodes are no longer reserved |
| `ClusterLeases.ClusterLease.Release` | tools/batched_test/resources.py:32-35 | the first release gives the nodes back, later ones do nothing |
| `ClusterLeases.SplitFillsNodes` | tools/batched_test/resources.py:76-90 | node counts add up to the request, every node but the last is full, and none is empty |
| `ClusterLeases.ClusterBackend.BuildNodes` | tools/batched_test/resources.py:76-90 | the loop computes that split, or raises at the node given |
| `ClusterLeases.ClusterBackend.Allocate` | tools/batched_test/resources.py:68-98 | whatever is raised while the lease is built, the reserved nodes are exactly those from before |
| `ClusterLeases.ClusterBackend.Release` | tools/batched_test/resources.py:32-35 | a release moves the backend as its state machine does |
| `ClusterLeases.AtMostOneLease` | tools/batched_test/mp_manager.py:206-214 | as every lease starts at node 0, there is at most one, and without one no node is taken |
| `ClusterLeases.EveryRunHasOneLease` | tools/batched_test/resources.py:68-98 | over every sequence of requests, failures and releases there is never a second lease, and the node set is exact |
| `ClusterLeases.RequestsGetTheFirstNodes` | tools/batched_test/resources.py:68-98 | a possible request is refused exactly while a lease is out, otherwise it gets the nodes from 0 upwards, so the error about rank 0 is unreachable |
| `CpuAffinity.GetDeviceCpuAffinity` | vllm_metax/platform.py:900-917 | for every count and mask, the list is strictly ascending and has exactly the ids below the count whose bit is set |
| `CpuAffinity.SameListSameMask` | vllm_metax/platform.py:909-917 | the list determines the mask below the count, so decoding loses nothing |
| `CpuAffinity.BitsMakeTheWord` | vllm_metax/platform.py:909-917 | the bits that are tested are those of the binary number: together they make up the word |
| `CpuAffinity.WordsSuffice` | vllm_metax/platform.py:906-907 | the number of words asked for is the least with a bit for every CPU |
| `CpuList.CpuInCpulist` | vllm_metax/platform.py:943-953 | the early-return loop gives the verdict of the first part that has one: found, or malformed |
| `CpuList.EntryVerdict` | vllm_metax/platform.py:945-952 | a printed CPU or range is recognised and decided correctly |
| `CpuList.NumbersRead` | vllm_metax/platform.py:945-952 | decimal numbers, with a sign and in white space, are read as themselves |
| `CpuList.OnlyNumbersRead` | vllm_metax/platform.py:945-952 | and nothing else is read as a number |
| `CpuList.ListMembership` | vllm_metax/platform.py:943-953 | for every list of CPUs and ranges as the kernel prints it, the test is true exactly for the ids in it and never raises |
| `CpuList.GetNumaNodeForCpu` | vllm_metax/platform.py:920-940 | the first directory whose list has the CPU; malformed names and lists are passed over |
| `CpuList.NumaNodeIsRight` | vllm_metax/platform.py:920-940 | in whatever order the directory is read, a node is found exactly when some node has the CPU, and that node has it |
| `Text.SpacesAre` | tools/batched_test/reporting.py:77-88 | white space are the ten ASCII characters that `strip` removes |
| `Text.StripTakesSpace` | tools/batched_test/reporting.py:77-88 | stripping takes white space away at both ends, all of it and nothing else |
| `Text.StripSpace` | tools/batched_test/reporting.py:77-88 | and undoes any white space put around a text |

## Left out

Deliberately weaker than the code or its documentation:

- CumemAllocator.Allocator.CreateAndMap: the call that sets the access rights is taken to succeed on a range that has just been mapped in full; the code does not undo anything there. Nor do a context call or `malloc` fail.
- CumemAllocator.Allocator.MyMalloc: requires that none of the 64-bit roundings wraps, and that the Python callbacks are set and succeed. The heap cells that the code frees when it fails are taken to keep their values, although the entry left behind still points to them.
- CumemAllocator.Allocator.Run: passes over malloc requests whose rounding wraps. The order in which `sleep`, `discard` and `wake_up` go through the registry, tags, and the copies in host memory are the caller's. The Python side is taken to see the same platform as the extension was built for.
- CumemCounts.RunCounts: leaked handles are counted up to the first wild operation, after which an entry may release a handle that counts as leaked.
- LaunchBoundary.NextLaunchIsSafe: that a launch begins on a rank after all blocks of the one before have ended is the order of the stream, and a hypothesis.
- TwoShot.EveryOutputIsTheReduction: one rank is one process, so the threads within a workgroup and the barriers between them are not modelled, a send or a receive of a segment is one step, and memory is sequentially consistent although the wait loop loads relaxed; the codecs are the identity.
- GroupReduce.GroupAbsMax: half-precision values are real numbers, without NaN.
- Launches.DeviceComms.AllReduce: the blocks of a launch run one after the other, as they share no counter.
- NinjaSweep.SummarizeEntries: times are real numbers, so rounding is not modelled; at least one entry is required (the code fails on an empty list), with a start that is not negative and not after the end, as in a log.
- NinjaLog.ReadTargets: lines are already split into fields and their times parsed; the header line is the caller's.
- ScalarTypeMax.MaxIsLargest: formats with infinities are the IEEE 754 ones and the others are finite-only; the standard exponent bias is assumed, as the code does.
- Resume.ResumeIndex.ShouldSkip: reports are tables, not bytes; a ratio cell is a number or unreadable, and the white space that is stripped is ASCII.
- ResumeChain.FullPassMeans: the decimal rounding of a ratio that lies exactly between two printed values is taken upwards.
- ResumeChain.SkippedExactlyWhenCertified: holds for tags that are apart and have no white space around them; when such white space matters is the subject of `SafeToResume`. Every run of the family writes its manifest and its table; reports from before manifests are read by `ShouldSkip` but not chained.
- Leases.ResourceLease.Release: atomic; two threads that release the same lease at the same moment are not modelled, and in the code each lease belongs to one thread.
- ClusterLeases.ClusterBackend.Allocate: what building an entry raises, and where, is a parameter; host names and environments are not represented.
- CpuList.CpuInCpulist: numbers are ASCII digits with an optional sign; underscores and other digits that `int` accepts are not modelled.

Not modelled at all:

- the path of the allocator without chunks, reference counts and the interpreter lock;
- the quantising codecs, IPC handles and stream handling of the all-reduce;
- the integer limits, the bias subtraction in `max` and `min`, and the names of scalar types;
- extensions, formatting and argument parsing of the build report;
- the task runner with its threads, timeouts and clean-up, benchmark rows, the reason column, SSH, process start-up and device queries of the batched tests;
- platform registration, operator bindings, configuration and the examples.
