# retrowrite and its AFL tree, modelled and verified

This project models the hard core of two programs that live in one repository and proves
properties of it. retrowrite rewrites binaries: it recovers control flow, finds out which
registers are free, makes data symbolic and inserts AddressSanitizer checks. AFL fuzzes the
result. Everything is Dafny; `dafny verify dfyconfig.toml` checks the whole project.

Where the source changes things step by step the model is imperative: classes for objects whose
fields change, arrays for buffers that are worked on in place, loops with invariants. Each such
method is proved against a specification function or states its property outright, and the
properties that span operations are lemmas about the specification.

**Registers and the inserted check.** `registers`, `controlflow` and `liveness` model the
backward analysis with its closures over register parts, its short-circuited passes and its
cap. `soundness` proves, for programs whose instructions are any functions that respect the
decoder's read and write sets, that what the analysis calls free cannot be observed;
`namedparts` says which register names count as read and overwritten, and derives that respect
from the values of the named parts; `partialflags` says which instructions do not respect them.
`asan_machine`, `asan`, `asan_shadow`, `asan_check`, `asan_frame` and `asan_theorem` give the emitted templates a
meaning on a machine with registers, six status flags, memory and shadow, and end in a
compiler-correctness theorem for a function instrumented throughout. `instrumenter` puts
control flow, analysis and emission together and hands them to that theorem. `asan_reference`
shows that the machine asked for exists, and `asan_example` a function that meets all premises.
The calling convention and the red zone are those of section 3.2 of the System V AMD64 ABI, and
the flag instructions those of the Intel SDM, volume 2.

**The minimizer.** `minimizer` (with `buffers`) follows afl-tmin from its accept test to the
fixpoint of its passes; `minimizerlaws` says what every stage decides, block by block, symbol by
symbol and byte by byte, without its loop. The target is any deterministic function of the input.

**The fork server.** `forkserver` is a transition system of fuzzer, timer, server and children
over two pipes, with an inductive invariant and a record of the actions that the statuses are
held against.

**Coverage.** `coverage` and `fuzzer` model scoring, culling and the counters, byte by byte and
over whole runs; `coveragelaws` tells each operation without its loop. `bits`, `bitmap` and
`mapcounts` prove the word-at-a-time routines.

**Mutators.** `trim` with `trimlaws`, `flips`, `detstages`, `effectors`, `havoc` and `score`.

**Data.** `switchtable`, `safeorders` and `sectionprint` follow jump tables from cells to the
assembled section, and `tablelaws` says from the bytes what becomes of them; `tokens` is the
dictionary printer together with the loader, and `tokenlabels` the loader's labels and levels.

Some properties one would expect turned out to hold only under a condition. Each has a witness
that fails and the condition, which is proved exact: an access across granules
(`AsanShadow.ExactForAllShadowsIff`), an entry scored again with a larger factor, which the
fuzzer never does (`Coverage.ScoringGivesBestIff`), the file on disk after a trim
(`Trim.DiskFollowsIff`, `Trim.DiskFollowsByLength`), switch tables of different functions
(`SafeOrders.SafeOrderIff`), texts that start with a NUL (`Tokens.RoundTrip`), successor lists
and prefixed returns (`ControlFlow.ListIsRightIff`), instructions that write only some flags
(`PartialFlags.FramedIffNoFlagKept`), interesting values without arithmetic
(`DetStages.NoArithRunsIff`), and the timer after a child is reaped
(`ForkServer.SignalsGoneIff`). For the characters of a minimized test case
(`Minimizer.MinimizedCharacters`) the condition is proved sufficient.

## Model

| member | source | states |
|---|---|---|
| `ControlFlow.AddressIndex` | librw/rw.py:156-158 | The index maps exactly the addresses of instructions, each to an instruction at that address, the last one if there are several |
| `ControlFlow.JumpEdge` | librw/rw.py:215-223 | The edge recorded for a jump is the only place its target leads to, an instruction of the function or an unknown one |
| `ControlFlow.SymbolizeCfTransfer` | librw/rw.py:154-223 | The lists are those of the tests on mnemonic prefix and groups; when the decoder's groups are right, a list names exactly the transitions out of its instruction if and only if the mnemonic tells whether it returns |
| `ControlFlow.SuccessorList` | librw/rw.py:161-223 | The edges of one instruction, by the tests in their order |
| `ControlFlow.ListIsRightIff` | librw/rw.py:164-171 | With the right groups: right exactly when the mnemonic starts with ret just for returns |
| `ControlFlow.PrefixedReturnIsMissed` | librw/rw.py:166 | A return printed with a prefix gets the next instruction as its successor |
| `Registers.PoolSize` | librw/analysis/register.py:34-50 | The pool of tracked registers has at most 16 members |
| `Liveness.KillsWhole` | librw/analysis/register.py:52-86 | A write that overwrites a full register overwrites all its parts |
| `Liveness.TransferShape` | librw/analysis/register.py:136-158 | On full registers and flags the set operations of the source are the textbook liveness equation, in spite of the closures over parts, and the result holds parts exactly with their full register |
| `Liveness.UpdateKeepsInv` | librw/analysis/register.py:136-158 | Applying the equation at any instruction, in any order, keeps the used sets above what the equation asks for |
| `Liveness.ChangeUsesSlack` | librw/analysis/register.py:154-156 | Each recorded change uses up one of the at most 19 changes a set can make |
| `Liveness.RegisterAnalysis.Lookup` | librw/analysis/register.py:18-19 | Reading a missing entry stores the default and changes no value |
| `Liveness.RegisterAnalysis.AnalyzeInstruction` | librw/analysis/register.py:136-158 | The entry becomes the value of the equation, no other value changes, and the result tells whether it differs; NamedParts.ReadsAreMentions and NamedParts.KillsAreWholeWrites say which registers the equation takes as read and as overwritten |
| `Liveness.RegisterAnalysis.Pass` | librw/analysis/register.py:130-132 | A pass that changes nothing has solved the equation everywhere; one that changes something uses up slack; both keep the invariant |
| `Liveness.RegisterAnalysis.AnalyzeFunction` | librw/analysis/register.py:126-134 | However the loop ends, also by the cap of 8192, the used sets are large enough; if it ends by itself the equation holds everywhere; it ends by itself within 19 passes per instruction and one more, unless the cap is lower |
| `Liveness.RegisterAnalysis.Iterate` | librw/analysis/register.py:127-133 | The capped loop by itself: soundness at any end, the solution if it settles, and the bound on its passes |
| `Liveness.RegisterAnalysis.Finalize` | librw/analysis/register.py:165-167 | The loop gives exactly the places with a used set a free set; a tracked register is in one of the two sets and never in both, and other free sets stay as they are |
| `Liveness.CoversLivePaths` | librw/analysis/register.py:126-158 | In every state of the analysis a register that is read along some path before it is overwritten, or handed to an exit, is in the used set |
| `NamedParts.ReadsAreMentions` | librw/analysis/register.py:116-142 | From the names that the decoder reports alone: a register is read exactly if it or a part of it is named, the flags exactly if they are |
| `NamedParts.KillsAreWholeWrites` | librw/analysis/register.py:52-86 | A register is taken out exactly if it is written by its 64-bit or 32-bit name and no part of it is read; a 16-bit or 8-bit name never takes it out |
| `NamedParts.ReadIsNotFree` | librw/analysis/register.py:138-167 | In every state of the analysis a register that an instruction names as read, wholly or in part, is not free there |
| `NamedParts.NamedFramedIsFramed` | librw/analysis/register.py:138-152 | Instructions that depend on the values of the named parts only, and change the named parts only, with 32-bit writes clearing the upper half, meet the frame condition that the analysis is sound for |
| `NamedParts.FramedByNamesIsWellFramed` | librw/analysis/register.py:138-152 | The same for a whole program whose callees keep the calling convention |
| `Soundness.StepsTogether` | librw/analysis/register.py:136-158 | Two states that agree on memory and the used registers make the same step and agree on the registers used after it |
| `Soundness.RunsTogether` | librw/analysis/register.py:126-167 | For every control-flow graph, start and number of steps, two runs that agree on the used registers stay at the same place and keep agreeing, over calls, returns and unknown edges |
| `Soundness.FreeRegistersAreDead` | librw/analysis/register.py:165-167 | Overwriting the free registers before an instruction in any way cannot be observed at any later step |
| `Soundness.RewritingPreservesMeaning` | librw/analysis/register.py:126-167 | Any inserted code that gives back the registers that are not free leaves the run of a whole function as it was, and the rewritten run stops exactly where the inserted code reports |
| `PartialFlags.FramedIffNoFlagKept` | librw/analysis/register.py:46-48 | The frame condition that the results above ask of an instruction reported to write the flags holds if and only if it keeps none of the six |
| `PartialFlags.LostCarryIsObserved` | librw/analysis/register.py:144-150 | An increment keeps the carry and is reported to write the flags: they are called free before it, and a later reader of the carry tells two such states apart |
| `Asan.SortFree` | rwtools/asan/instrument.py:139-144 | The free registers come out once each, in the order of preference |
| `Asan.ChoosePlan` | rwtools/asan/instrument.py:149-172 | Which registers are used and saved, and how flags are kept, for every free set; the scratch registers differ, each is free or saved, and the way flags are kept touches only free registers |
| `Asan.EmitCheck` | rwtools/asan/instrument.py:101-133 | Editing the template lists in place gives the check for each access size |
| `Asan.EmitRegs` | rwtools/asan/instrument.py:174-187 | Appending and inserting gives saves and restores in mirrored order, with the right count |
| `Asan.EmitFlags` | rwtools/asan/instrument.py:189-218 | The code for the flags is put last into the saves and first into the restores |
| `Asan.EmitStackMove` | rwtools/asan/instrument.py:220-222 | The stack pointer is moved back up by as much as was pushed, and down again before restoring |
| `Asan.GetMemInstrumentation` | rwtools/asan/instrument.py:138-239 | The emitted sequence for every free set, leaf flag and size, with a plan that fits the free set |
| `AsanShadow.ExactWithinGranule` | rwtools/asan/snippets.py:30-46 | Inside an 8-byte granule, for sizes 1, 2, 4 and 8, the decision is to report exactly when some accessed byte is unaddressable |
| `AsanShadow.ExactUnlessMissed` | rwtools/asan/snippets.py:30-46 | At any address the decision is exact if and only if it is not the case that the first granule is wholly addressable while a byte in the next one is not |
| `AsanShadow.ExactForAllShadowsIff` | rwtools/asan/snippets.py:30-46 | By the address alone: exact for every valid shadow if and only if the access stays inside its granule |
| `AsanShadow.CrossingCanBeMissed` | rwtools/asan/snippets.py:30-46 | An access across granules that the check lets through although it is bad |
| `AsanCheck.CheckDecides` | rwtools/asan/snippets.py:30-46 | Run on the machine, the instructions of the check reach the report call exactly on that decision, and otherwise go on behind the label with only scratch registers and flags changed |
| `AsanFrame.SaveEffect` | rwtools/asan/snippets.py:48-66 | After the saving code the stack pointer is back, the saved values are in their slots, nothing else in memory changed |
| `AsanFrame.RestoreFlagsEffect` | rwtools/asan/snippets.py:68-77 | Both ways of keeping the six status flags bring them back: popf, and add 0x7f with sahf after lahf and seto |
| `AsanFrame.RestoreRegsEffect` | rwtools/asan/snippets.py:83-86 | Saved registers and the stack pointer come back |
| `AsanTheorem.CheckedAccessSound` | rwtools/asan/instrument.py:138-239 | For every plan, leaf flag, size, processor and state, the emitted code evaluates the address on the original registers, reports exactly when the check decides so, and otherwise restores rsp, all registers that are not free and live flags, and changes memory only in its slots |
| `AsanTheorem.RedZoneKept` | rwtools/asan/snippets.py:99-100 | Memory at and above rsp is unchanged, and in leaf functions the 128 bytes of red zone too |
| `AsanTheorem.ChecksAreTransparent` | rwtools/asan/instrument.py:138-239 | Checks chosen by the computed free sets are such inserted code |
| `AsanTheorem.InstrumentationPreservesMeaning` | rwtools/asan/instrument.py:138-239 | The instrumented function reports exactly when the original run comes to an access whose check fails, and until then is in step with it, with the same used registers and memory outside stale slots |
| `Instrumenter.InstrumentMemAccesses` | rwtools/asan/instrument.py:301-343 | Every access gets the check that the free set of its instruction asks for, with a plan that fits, and no other instruction gets one |
| `Instrumenter.InstrumentFunction` | rwtools/asan/instrument.py:301-343 | Control flow recovery, analysis and emission together meet the premises of the instrumentation theorem for every decoded function whose instructions the decoder and the mnemonics tell |
| `Instrumenter.InstrumentedFunctionIsPreserved` | rwtools/asan/instrument.py:301-343 | So for every such function and any meaning of its instructions that reads and writes the values of the named register parts only, the instrumented function reports exactly if the original run comes to an access whose check fails, keeps in step with it until then, and returns with all registers the same |
| `AsanReference.RealProcessorExists` | rwtools/asan/snippets.py:30-100 | For every address expression there is a processor that behaves as the theorems demand |
| `AsanExample.PremisesHold` | rwtools/asan/instrument.py:138-239 | The premises of that theorem go together: they hold of a function with a checked access whose free set is not empty, for every machine state and number of steps |
| `Minimizer.AcceptsMeans` | docker/afl/afl-tmin.c:351-399 | A later run is accepted exactly when it does not time out and does what the first run did |
| `Minimizer.SameBlockSameDeletion` | docker/afl/afl-tmin.c:502-513 | A block equal to its predecessor deletes to the same data, which is why skipping it loses nothing |
| `Minimizer.NextP2` | docker/afl/afl-tmin.c:404-410 | The least power of two not below the argument |
| `Minimizer.CopyWithout` | docker/afl/afl-tmin.c:517-523 | The buffer that is tried is the data without one block, short at the end |
| `Minimizer.TryWithout` | docker/afl/afl-tmin.c:515-533 | A block goes exactly when the data without it is accepted; otherwise nothing changes |
| `Minimizer.DeleteBlocks` | docker/afl/afl-tmin.c:494-535 | A sweep gives what the specification gives and keeps the buffer accepted; one that deletes nothing proves that no block of this length can be deleted, the skipped ones included |
| `Minimizer.DeleteStage` | docker/afl/afl-tmin.c:480-542 | All block lengths down to 1: a stage that deletes nothing proves minimality for every power of two up to the first length |
| `Minimizer.NormalizeBlocks` | docker/afl/afl-tmin.c:430-464 | The loop gives the specified data, which are accepted and differ from the input only in bytes that became '0'; MinimizerLaws.NormalizedIsLawful says which |
| `Minimizer.AlphabetStage` | docker/afl/afl-tmin.c:555-592 | Symbols become '0' in accepted data only; with no change, replacing any symbol throughout is rejected |
| `Minimizer.CharacterStage` | docker/afl/afl-tmin.c:604-627 | Characters become '0' in accepted data only; with no change, replacing any single character is rejected |
| `Minimizer.NonZeroDrops` | docker/afl/afl-tmin.c:415-634 | Replacing bytes by '0' lowers the number of other bytes: the second part of the termination measure |
| `Minimizer.Minimize` | docker/afl/afl-tmin.c:415-634 | For every deterministic target that accepts the input the passes come to an end in what the specification gives (MinimizerLaws.MinimizedIsLawful says what that is), the result is accepted and comes from the input by deleting bytes and zeroing others, deleting any single byte of it is rejected, and so is zeroing any single character if rejected zeroings stay rejected |
| `Minimizer.PassShrinks` | docker/afl/afl-tmin.c:471-634 | A pass that changes anything lowers the pair of length and bytes that are not zero |
| `Minimizer.MinimizedCharacters` | docker/afl/afl-tmin.c:549-634 | If a rejected zeroing stays rejected after more zeroing, no single character of the result can be zeroed |
| `Minimizer.CharacterMissed` | docker/afl/afl-tmin.c:549-634 | A target of another kind: "A111BB" ends as "A111B0" although "0111B0" is accepted |
| `MinimizerLaws.NormalizedIsLawful` | docker/afl/afl-tmin.c:430-464 | Without the loop, for every target and input: with blocks of the least power of two that is not below 4 or a 128th of the length, each block of the result is all '0' if the target accepts that, with the result before it and the input behind it, and is the input's block otherwise |
| `MinimizerLaws.SweepIsGreedy` | docker/afl/afl-tmin.c:494-535 | Without the loop and without skipping: a sweep decides each block once, from front to back, and keeps it exactly if the target rejects the blocks kept so far with all blocks behind it |
| `MinimizerLaws.DeletionIsLawful` | docker/afl/afl-tmin.c:480-542 | The stage is a chain of such sweeps, the first with the least power of two that is not below a 16th of the length, each with half the block length of the one before, down to 1 or until nothing is left |
| `MinimizerLaws.SymbolsAreLawful` | docker/afl/afl-tmin.c:555-592 | Without the loop: a symbol becomes '0' throughout exactly if the target accepts that with lower symbols as in the result |
| `MinimizerLaws.CharactersAreLawful` | docker/afl/afl-tmin.c:604-627 | Without the loop: a byte becomes '0' exactly if the target accepts that with the result before it and the input behind it |
| `MinimizerLaws.MinimizedIsLawful` | docker/afl/afl-tmin.c:415-634 | The whole run: one normalization, then passes of deletion, symbols and characters; a later pass that deletes nothing, or any pass that changes nothing, is the last, and every other pass is followed by another |
| `ForkServer.StepKeepsInv` | docker/afl/llvm_mode/afl-llvm-rt.o.c:107-169 | Every step of fuzzer, timer, server or child keeps the invariant that ties pipes, pids, the timer and the child together |
| `ForkServer.RunKeepsInv` | docker/afl/afl-fuzz.c:2364-2434 | Every state of every interleaving has the invariant |
| `ForkServer.EveryRunIsSafe` | docker/afl/llvm_mode/afl-llvm-rt.o.c:95-169 | In every interleaving each status read is of the child whose pid was read in the round, there is at most one unreaped child, no dead child is resumed, and the server waits only on a child that exists |
| `ForkServer.StepKeepsTold` | docker/afl/llvm_mode/afl-llvm-rt.o.c:107-169 | Every step keeps what a record of the actions alone says of the child, of the status on its way and of the timer |
| `ForkServer.EveryStatusIsTheChilds` | docker/afl/llvm_mode/afl-llvm-rt.o.c:148-161 | In every interleaving the status read tells what the child did last before it was waited for, as the actions of the run tell: it exited, it crashed, it stopped itself, or the timer reached it alive |
| `ForkServer.EveryVerdictIsRight` | docker/afl/afl-fuzz.c:2440-2463 | In every interleaving the fuzzer reports a timeout exactly if the timer ended the child that was waited for, and a crash exactly if the child crashed; a timer that expires late changes neither |
| `ForkServer.SignalsGoneIff` | docker/afl/afl-fuzz.c:6784-6796 | In every reachable state: the timer, if it expired now, would signal a pid that is gone exactly from the reaping of an ended child until the fuzzer drops its pid |
| `ForkServer.TimerCanSignalGone` | docker/afl/afl-fuzz.c:2404-2434 | A run that comes to such a state |
| `ForkServer.Progress` | docker/afl/afl-fuzz.c:2364-2434 | In every reachable state of a round some step is possible that brings its end nearer |
| `ForkServer.RoundCanFinish` | docker/afl/afl-fuzz.c:2364-2434 | From every reachable state the round can be finished within a bounded number of steps |
| `ForkServer.TimerKeepsInv` | docker/afl/afl-fuzz.c:6784-6796 | The timer may fire at any point between arming and cancelling, also after the child has stopped, without breaking the invariant |
| `Coverage.ScoreKeepsRefs` | docker/afl/afl-fuzz.c:1236-1278 | Any scoring, also of an entry scored before, keeps each reference count equal to the number of bytes won, and a compact trace exactly while there are any |
| `Coverage.ScoreTakes` | docker/afl/afl-fuzz.c:1244-1276 | The loop gives the newcomer exactly the bytes it hits on which nobody was better |
| `Coverage.ScoringGivesBestIff` | docker/afl/afl-fuzz.c:1236-1278 | After a scoring every byte's winner is best if and only if the entry's new factor is not beaten on the bytes it already held |
| `Coverage.ScoringKeepsBest` | docker/afl/afl-fuzz.c:4557-4573 | Scoring a new entry, or an old one with a factor that did not grow, keeps every winner best |
| `Coverage.SlowerWinnerKeepsByte` | docker/afl/afl-fuzz.c:1248-1262 | An entry measured again and found slower keeps its byte although another one is better |
| `Coverage.ScoreKeepsCounters` | docker/afl/afl-fuzz.c:1236-1278 | Scoring changes no counter |
| `Coverage.AddKeepsCounters` | docker/afl/afl-fuzz.c:790-791 | Adding an entry keeps the counters exact |
| `Coverage.FinishKeepsCounters` | docker/afl/afl-fuzz.c:6605-6609 | The end of fuzzing an entry keeps the counters exact |
| `Coverage.CullByteKeepsSweep` | docker/afl/afl-fuzz.c:1312-1328 | In the greedy loop a byte is off the list exactly when a favored entry hits it, and no entry is counted twice |
| `Coverage.CullCovers` | docker/afl/afl-fuzz.c:1287-1328 | After culling the favored entries cover every byte that has a best entry, and all counters are exact |
| `CoverageLaws.AddIsLawful` | docker/afl/afl-fuzz.c:776-797 | The last entry has the given length and is neither fuzzed nor favored and without references, one more entry is pending, and nothing else changes |
| `CoverageLaws.ScoreIsLawful` | docker/afl/afl-fuzz.c:1236-1278 | Without the loop: the newcomer takes exactly the bytes it hits on which nobody was better, the flag is set exactly if it takes one, compact traces are only dropped but for its own, and references stay exact |
| `CoverageLaws.CullIsGreedy` | docker/afl/afl-fuzz.c:1287-1328 | Without the loop, for any traces: a byte is chosen exactly if it has a winner and no chosen byte below it has a winner that hits it; exactly the winners of chosen bytes are favored, and both counters count them |
| `CoverageLaws.FinishIsLawful` | docker/afl/afl-fuzz.c:6605-6609 | The entry is fuzzed afterwards if it was or if the end counts; in the second case it leaves the pending count, and the count of favored ones if it is favored; nothing else changes |
| `Fuzzing.EveryRunKeepsTheBooks` | docker/afl/afl-fuzz.c:1236-1330 | Over whole runs in which every entry hits the same bytes each time: exact counters that never go below zero, and a complete cover after each cull; references as below |
| `Fuzzing.EveryRunKeepsTheReferences` | docker/afl/afl-fuzz.c:1236-1278 | Over whole runs with any traces: every entry's references are the bytes it wins, its compact trace is kept exactly while there are any, and the number of entries not fuzzed yet is exact |
| `Fuzzing.EveryRunKnowsTheFuzzed` | docker/afl/afl-fuzz.c:6605-6609 | Over whole runs with any traces: an entry is marked as fuzzed exactly if some earlier operation ended its fuzzing and counted |
| `Fuzzing.EveryRunKnowsTheMeasure` | docker/afl/afl-fuzz.c:4557-4573 | Over whole runs an entry's speed and length are what it was last scored with |
| `Fuzzing.EveryRunKeepsTheBest` | docker/afl/afl-fuzz.c:1236-1278 | Over whole runs without a re-scoring that finds a larger factor, each byte's winner has the least factor among the scored entries that hit it |
| `Fuzzing.EventsShrink` | docker/afl/afl-fuzz.c:2631-2639 | Neither scoring after a successful calibration nor scoring after a trim finds a larger factor for an entry scored before |
| `Fuzzing.EveryFuzzerRunKeepsTheBest` | docker/afl/afl-fuzz.c:4557-4573 | So in every run of the fuzzer the winners are best at any time |
| `Fuzzing.WinnerHasTrace` | docker/afl/afl-fuzz.c:1319-1321 | The compact trace that culling reads without a check is there |
| `Fuzzing.Fuzzer.AddToQueue` | docker/afl/afl-fuzz.c:776-797 | The new entry is the last one, with the given length, neither fuzzed nor favored and without references, and one more entry is pending; nothing else changes |
| `Fuzzing.Fuzzer.ScoreSlot` | docker/afl/afl-fuzz.c:1247-1276 | One turn of the scoring loop does what the specification says of a byte |
| `Fuzzing.Fuzzer.UpdateBitmapScore` | docker/afl/afl-fuzz.c:1236-1278 | The scoring loop gives the specified winners, references, traces and flag, and meets the law of scoring |
| `Fuzzing.Fuzzer.CullQueue` | docker/afl/afl-fuzz.c:1287-1330 | The culling loop gives the specified favored entries and counters, meets the greedy law, and never lacks a trace |
| `Fuzzing.Fuzzer.FinishFuzzing` | docker/afl/afl-fuzz.c:6605-6609 | If the end counts and the entry was not fuzzed it is fuzzed afterwards, the pending count is one less, and so is that of favored ones exactly if it is favored; otherwise, and for everything else, nothing changes |
| `Bits.WordwiseIsBytewise` | docker/afl/afl-fuzz.c:878-938 | An operation on little-endian words is the operation on each byte |
| `Bitmap.WordTest` | docker/afl/afl-fuzz.c:904 | The test on two words is true exactly when some byte has a bit still set in the virgin map |
| `Bitmap.AnyPristine` | docker/afl/afl-fuzz.c:916-926 | The byte tests find out whether a hit byte is pristine |
| `Bitmap.TestWord` | docker/afl/afl-fuzz.c:904-934 | One turn of the word loop extends the verdict and the clearing to the bytes of the word |
| `Bitmap.HasNewBits` | docker/afl/afl-fuzz.c:878-945 | A word at a time, with 8-byte or 4-byte words: the verdict is that of the byte-wise definition, and each byte of the map loses exactly the bits of the trace |
| `Bitmap.VirginIsComplement` | docker/afl/afl-fuzz.c:932 | From a map of all ones, after any history, a bit is set exactly when no trace had it |
| `Bitmap.VerdictTellsHistory` | docker/afl/afl-fuzz.c:871-874 | 2 exactly when a byte is hit for the first time, 0 exactly when all bits were seen before, otherwise 1 |
| `Bitmap.SameTraceIsOld` | docker/afl/afl-fuzz.c:871-874 | A trace seen once gives 0 ever after |
| `MapCounts.ParallelCountIsPopCount` | docker/afl/afl-fuzz.c:970-972 | The masks, shifts and wrapped product count the bits of every 32-bit word |
| `MapCounts.CountBits` | docker/afl/afl-fuzz.c:951-978 | The number of set bits of the map |
| `MapCounts.MaskSeesByte` | docker/afl/afl-fuzz.c:981-1026 | The masked tests see whether a byte is set, and whether it is 255 |
| `MapCounts.CountBytes` | docker/afl/afl-fuzz.c:986-1006 | The number of bytes that are not 0 |
| `MapCounts.CountNon255Bytes` | docker/afl/afl-fuzz.c:1012-1035 | The number of bytes that are not 255 |
| `MapCounts.InitCountClass16` | docker/afl/afl-fuzz.c:1131-1141 | The 16-bit table holds the classes of both bytes of every index |
| `MapCounts.LookupIsClass` | docker/afl/afl-fuzz.c:1156-1159 | One lookup classifies both bytes of a halfword |
| `MapCounts.ClassMeaning` | docker/afl/afl-fuzz.c:1112-1128 | A class is the one bit of its bucket and 0 just for no hits; it does not decrease with the count and grows exactly where a bucket begins, at 1, 2, 3, 4, 8, 16, 32 and 128 |
| `MapCounts.ClassifyCounts` | docker/afl/afl-fuzz.c:1146-1169 | Every byte becomes its class, the bytes of the words that are skipped included |
| `Trim.WriteWithGap` | docker/afl/afl-fuzz.c:2496-2522 | The file is the data without the block, whether it is created or overwritten and truncated |
| `Trim.CloseGap` | docker/afl/afl-fuzz.c:4523-4529 | The buffer after the move is what the file with the gap was |
| `Trim.TryTrim` | docker/afl/afl-fuzz.c:4505-4544 | A block goes exactly when the run without it has the entry's checksum, and the run's giving up is passed on |
| `Trim.TrimPass` | docker/afl/afl-fuzz.c:4493-4550 | The loop ends in what the specification gives: data, number of executions, last file, and whether an execution gave up |
| `TrimLaws.PassIsLawful` | docker/afl/afl-fuzz.c:4493-4550 | Without the loop, for every target, also one that varies: the first block is never tried, every other block exactly once from front to back, on the blocks kept so far with all blocks behind it, and it goes exactly if that execution matches; only the last execution may have given up |
| `TrimLaws.TrimmingIsLawful` | docker/afl/afl-fuzz.c:4476-4552 | The trim is a chain of such passes: the first with a 16th of the least power of two not below the length, but at least 4, each with half the block length of the one before, until an execution gives up or the blocks are below 4 or below a 1024th of that power for the data left |
| `Trim.TrimCase` | docker/afl/afl-fuzz.c:4463-4580 | Trimming ends in what the specification gives; it only deletes and keeps the first 4 bytes; the data get shorter exactly when some execution matched the entry's checksum, and are then the very file that a matching execution ran on, even for a target that varies; it gives up exactly when an execution does; the file on disk follows the buffer if and only if it is not the case that one execution matched and one gave up; executions are at most 1024 for each halving of the block length |
| `Trim.TrimIsHonest` | docker/afl/afl-fuzz.c:4463-4580 | The same for the specification, over every input, checksum and target |
| `Trim.DiskFollowsIff` | docker/afl/afl-fuzz.c:4554-4575 | The disk lags behind the entry exactly when one execution matched and one gave up |
| `Trim.DiskFollowsByLength` | docker/afl/afl-fuzz.c:4476-4580 | By the length alone: the disk follows for every target if and only if the entry has fewer than nine bytes |
| `Trim.GivenUpTrimLeavesDiskBehind` | docker/afl/afl-fuzz.c:4510 | Nine bytes, a match and then a given-up execution: five bytes in the entry, nine on disk |
| `Trim.TrimTakes` | docker/afl/afl-fuzz.c:4491-4550 | At most 1024 executions for each halving of the block length |
| `Trim.StepsBound` | docker/afl/afl-fuzz.c:4491-4550 | A pass takes at most 1024 executions |
| `Flips.FlipRangeBit` | docker/afl/afl-fuzz.c:5095-5099 | Flipping bits most significant bit first changes exactly the bits of the range |
| `Flips.FlipTwice` | docker/afl/afl-fuzz.c:5113-5190 | Flipping again restores the buffer |
| `Flips.CouldBeBitflip` | docker/afl/afl-fuzz.c:4757-4781 | The loop answers yes exactly for no change, runs of 1, 2 or 4 bits anywhere and of 8, 16 or 32 bits at byte boundaries |
| `Flips.PatternIsRun` | docker/afl/afl-fuzz.c:4767-4776 | For a byte: exactly the runs of 1, 2, 4 or 8 bits inside it, and no change |
| `Flips.RunIsFlip` | docker/afl/afl-fuzz.c:5095-5099 | Setting a byte equals a walking flip exactly when the change is a run of that length |
| `DetStages.CouldBeArithMeans` | docker/afl/afl-fuzz.c:4787-4813 | For a byte: equal, or within 35 up or down with wrap-around |
| `DetStages.FlipBitsStage` | docker/afl/afl-fuzz.c:5113-5248 | The stage runs exactly the flips of its length and restores the buffer |
| `DetStages.FlipBytesStage` | docker/afl/afl-fuzz.c:5287-5413 | The stage runs exactly the byte flips at the positions it does not skip and restores the buffer |
| `DetStages.ArithStage` | docker/afl/afl-fuzz.c:5439-5485 | The stage runs exactly the sums and differences that could not be flips, at kept positions, and restores the buffer |
| `DetStages.InterestStage` | docker/afl/afl-fuzz.c:5695-5728 | The same for the interesting values that could be neither flips nor sums |
| `DetStages.FlipSkipsExactlyDone` | docker/afl/afl-fuzz.c:4757-4781 | For bytes the test is exact: a change is skipped if and only if it is none or its result was already run by a flipping stage |
| `DetStages.ArithIsLossless` | docker/afl/afl-fuzz.c:5439-5485 | Every value within reach at a kept position is run by the end of the stage, or is no change |
| `DetStages.InterestSkipsExactlyDone` | docker/afl/afl-fuzz.c:5708-5712 | Both tests together are exact at kept positions |
| `DetStages.InterestIsLossless` | docker/afl/afl-fuzz.c:5695-5728 | Every interesting value at a kept position is run by the end of the stage, or is no change |
| `DetStages.NoArithRunsIff` | docker/afl/afl-fuzz.c:5422 | With arithmetic switched off: an interesting value at a kept position is run, or no change, if and only if the change could be a flip or is out of reach of arithmetic |
| `DetStages.NoArithLosesSixteen` | docker/afl/afl-fuzz.c:5712-5713 | 16 in place of 5 is then never run |
| `Effectors.ByteStages` | docker/afl/afl-fuzz.c:5113-5728 | All stages in order with the map that they build, the buffer being the input again: exactly the flips, sums and interesting values named are run, and at every byte that has an effect or that the map keeps nothing is lost with arithmetic, and without it exactly what could be arithmetic and no flip |
| `Effectors.EffectorStage` | docker/afl/afl-fuzz.c:5268-5340 | The map marks exactly the first block of eight bytes, the last one, and those with a byte whose flip changes the checksum (any byte in dumb mode or below 128 bytes); if more than 90 per cent are marked, all are; the stage runs the flip of every byte |
| `Effectors.EffectIsKept` | docker/afl/afl-fuzz.c:5300-5316 | A byte with an effect is always kept |
| `Havoc.ChooseBlockLen` | docker/afl/afl-fuzz.c:4639-4676 | From 1 to the limit and at most 32768, for every sequence of random numbers, and drawn from the range that the numbers before select, cut off at the limit |
| `Havoc.SetInteresting` | docker/afl/afl-fuzz.c:6105-6150 | The interesting value, width, byte order and place drawn, inside the current length; a short buffer stays as it is |
| `Havoc.AddRandom` | docker/afl/afl-fuzz.c:6152-6260 | The byte or word at the place drawn changes by the number drawn, from 1 to 35, with wrap-around in the byte order drawn |
| `Havoc.BytesOfMeans` | docker/afl/afl-fuzz.c:6200-6260 | Reading a number back in the byte order it was written in gives it modulo the width, and the two byte orders mirror each other |
| `Havoc.FlipRandomBit` | docker/afl/afl-fuzz.c:6098-6103 | The bit drawn, inside the current length, is flipped |
| `Havoc.DeleteRandom` | docker/afl/afl-fuzz.c:6271-6294 | The block whose length and place are drawn, inside the current length, goes and at least one byte stays; bytes behind the length keep their values |
| `Havoc.CloneRandom` | docker/afl/afl-fuzz.c:6296-6344 | At the place drawn last, a block of the data (if the first draw says so) or constant bytes are inserted in a buffer of just the new length, which stays within the limit; near the limit nothing changes |
| `Havoc.XorRandomByte` | docker/afl/afl-fuzz.c:6262-6269 | The byte drawn, inside the current length, changes by the difference drawn, from 1 to 255 |
| `Havoc.CopyRandom` | docker/afl/afl-fuzz.c:6346-6370 | The block whose length and source are drawn, or constant bytes, as drawn, go over the bytes at the place drawn, inside the current length; bytes behind it keep their values |
| `Havoc.OverwriteExtra` | docker/afl/afl-fuzz.c:6375-6410 | The token drawn from the dictionaries goes over the bytes at the place drawn, inside the current length, unless it is longer; bytes behind it keep their values |
| `Havoc.InsertExtra` | docker/afl/afl-fuzz.c:6412-6462 | The token drawn from the dictionaries is inserted at the place drawn in a buffer of just the new length, unless the limit would be reached |
| `Havoc.Tweak` | docker/afl/afl-fuzz.c:6096-6464 | For every choice drawn the data change as that choice says, and the length stays from 1 to 1 MB and within the buffer's capacity |
| `Havoc.Round` | docker/afl/afl-fuzz.c:6088-6476 | The data run are the input under a stack of 2, 4 and so on up to 128 changes, of allowed length; afterwards the buffer is large enough and equals the input again, unless the stage is abandoned |
| `Score.CalculateScore` | docker/afl/afl-fuzz.c:4683-4747 | The score is the speed score scaled by the size factor and multiplied by the handicap and depth factors, capped at 1600 and never below 2; the handicap is used up |
| `Score.ScoreMonotone` | docker/afl/afl-fuzz.c:4683-4747 | A faster entry, one with a larger bitmap, a newer or a deeper one never scores less |
| `Score.FasterScoresMore` | docker/afl/afl-fuzz.c:4698-4704 | The speed score never grows with the time; it is above 100 exactly below half the average time, and below 100 exactly above four thirds of it |
| `Score.LargerScoresMore` | docker/afl/afl-fuzz.c:4709-4714 | The size factor never shrinks with the bitmap; it is above 1 exactly above four thirds of the average size, and below 1 exactly below two thirds of it |
| `Havoc.HavocStage` | docker/afl/afl-fuzz.c:6057-6490 | Whatever is found, there are at most 32768 runs, each on a stack of changes to the input and of allowed length; the runs are as many as planned, where each find doubles the plan until the score exceeds its limit; a stage is abandoned at the first run after which that is asked for, and otherwise has at least 16 runs and leaves the buffer as the input |
| `SwitchTables.DataSection.Load` | long/container.py:309-312 | One cell for each byte |
| `SwitchTables.DataSection.ReadAt` | long/container.py:323-338 | For any address, also below the section, with offsets that count from the end when negative: nothing exactly when a cell of the slice is a difference, zero if there are not four cells, otherwise the little-endian word |
| `SwitchTables.DataSection.Replace` | long/container.py:378-390 | For any offset in the list: one cell becomes the difference and the cells of the following slice are ignored, unless past the end or, in one of the two rewriters, symbolized before |
| `SwitchTables.PutAtIsPut` | long/container.py:378-390 | Where four cells were read, that is a slot over those four |
| `SwitchTables.PutKeepsTiled` | long/container.py:378-390 | A slot over four raw cells, the first of which is no part of another slot, keeps the section tiled |
| `SwitchTables.DifferenceIsValue` | long/bin2s.py:389-396 | Target minus base, as a 32-bit word, is the value that was read |
| `SwitchTables.SlotIsFree` | long/bin2s.py:401-416 | The walk never reaches a cell inside another slot, because it stops before any base |
| `SwitchTables.WalkTiles` | long/bin2s.py:385-416 | One table keeps the section tiled if it does not start inside a slot |
| `SwitchTables.PassTiles` | long/bin2s.py:384-416 | So do the tables of any order of bases without a collision |
| `SwitchTables.PassIntactIff` | librw/rw.py:232-263 | For any bases in any order the cells tile the section after the pass if and only if no base is recognised inside an earlier slot |
| `SafeOrders.SafeOrderIff` | librw/rw.py:232-263 | The orders of bases, each function with its own instructions for all its bases, that keep the layout for all bytes and all instructions: exactly those in which no base comes after one that it follows by less than 4, unless it is too near the end to be read |
| `SwitchTables.HarmlessPassTiles` | librw/rw.py:232-263 | Such an order leaves the section tiled |
| `SwitchTables.DescendingIsSpaced` | long/bin2s.py:384 | Descending order has no collisions |
| `SwitchTables.GroupsAreSpaced` | librw/rw.py:232-234 | Neither has the order by function, if bases of different functions are equal or at least 4 apart |
| `SwitchTables.SymbolizeTable` | long/bin2s.py:385-416 | From any state of the section and for any base, the loop gives the cells of the specified walk; TableLaws.TableIsLawful says what they are |
| `TableLaws.TableIsLawful` | librw/rw.py:240-263 | Without the walk, for every base and state of the cells: the slots from the base on are differences from the base to the word read plus the base, modulo 2^32, up to the first slot that is cut off, not raw, zero or without a valid target, or that holds another base; every other cell is as before |
| `TableLaws.LoadedTableIsLawful` | long/bin2s.py:385-416 | The same on a section just loaded, from its bytes alone |
| `TableLaws.EveryTargetIsValid` | librw/rw.py:225-263 | For any bases anywhere in any order: every cell after the pass holds its byte, or a difference whose origin is a base, whose target is valid for the function of that base, and whose value is what the four bytes hold |
| `SwitchTables.SymbolizeSwitchTables` | librw/rw.py:225-263 | For any order of bases anywhere, with or without the guard, the loop gives the cells of the specified pass; they tile the section if the bases lie in it and the order is harmless |
| `SectionPrint.PrintSection` | long/container.py:413-462 | The printing loop prints the cells that are not ignored, each with the running location as its label |
| `SectionPrint.AssemblesFrom` | long/container.py:423-454 | From any cell outside a slot the rest of a tiled section assembles to the rest of the original bytes |
| `SectionPrint.LabelsSitFrom` | long/container.py:446-447 | Every printed label is the address where the assembler puts its line |
| `SectionPrint.TiledIsFaithful` | long/container.py:413-462 | A tiled section assembles to its bytes, with all labels at their original addresses and the label of each table's base defined |
| `SectionPrint.DescendingPassIsFaithful` | long/bin2s.py:379-416 | For every section and every set of bases in it the pass in descending order keeps the layout |
| `SectionPrint.GroupedPassIsFaithful` | librw/rw.py:225-263 | The pass by function keeps it, if bases of different functions are equal or at least 4 apart |
| `SectionPrint.OverlapLosesBytes` | librw/rw.py:232-263 | Two functions with bases 2 apart: of six bytes four come back |
| `Tokens.DumpToken` | docker/afl/libtokencap/libtokencap.so.c:99-135 | The loop prints the escaped token in quotes, nothing for a length out of bounds, and never overruns its buffer |
| `Tokens.UnescapeLoop` | docker/afl/afl-fuzz.c:1601-1640 | The loop undoes the escapes or finds the first error |
| `Tokens.ParseOneLine` | docker/afl/afl-fuzz.c:1545-1641 | Trimming, comments, the label, the level, quotes and all errors as specified |
| `TokenLabels.LabelledLine` | docker/afl/afl-fuzz.c:1562-1585 | For every name, level, gap and white space around: the line gives its keyword, unless its level is above the one asked for, and is then skipped |
| `TokenLabels.CommentIsSkipped` | docker/afl/afl-fuzz.c:1545-1553 | A line whose first character is a hash sign is skipped, whatever follows |
| `TokenLabels.LineRead` | docker/afl/afl-fuzz.c:1537 | A line read ends with the first newline, or where the buffer is full or the file ends |
| `Tokens.LoadExtrasFile` | docker/afl/afl-fuzz.c:1525-1653 | The whole file, in lines of at most 8191 bytes, with the number of the line of the first error |
| `Tokens.UnescapeEscape` | docker/afl/libtokencap/libtokencap.so.c:113-128 | Undoing the escapes gives back every string of bytes, with NUL, quotes, backslashes and bytes above 127 in it |
| `Tokens.LoadedLine` | docker/afl/afl-fuzz.c:1537-1653 | A printed line is one line to the loader and gives its token, or the error for an empty keyword |
| `Tokens.LoadDumped` | docker/afl/afl-fuzz.c:1537-1653 | Loading what was printed for any list of tokens gives them in order, up to the first empty one |
| `Tokens.RoundTrip` | docker/afl/libtokencap/libtokencap.so.c:99-135 | For every list of tokens the fuzzer loads exactly the captured ones, in order, if and only if no text of allowed length starts with a NUL |
| `Tokens.NulTextIsFatal` | docker/afl/afl-fuzz.c:1591 | A text of allowed length that starts with a NUL stops the loader at its line |
| `Tokens.NulTextExample` | docker/afl/libtokencap/libtokencap.so.c:110 | A three-byte text of this kind |

## Left out

- ELF loading, disassembly, register descriptions and assembly text: decoded operands, read and write sets and register families are inputs.
- `rep stos`, stack poisoning, longjmp and globals instrumentation of the sanitizer: not part of this model.
- In the machine the stack pointer is an unbounded address, the shadow is apart from the program's memory, and no signal handler runs in the middle of an inserted sequence.
- Inserted checks leave stale bytes below the stack pointer, and the instrumentation theorem asks that the function does not load such bytes; it does not ask anything of other programs.
- Instructions that keep some of the status flags while they are reported to write them, as inc and dec do, do not meet the frame condition, and the instrumentation theorem does not speak of functions that hold them.
- AsanTheorem.InstrumentationPreservesMeaning: instructions other than the inserted ones are any functions that respect the decoder's read and write sets; it does not derive those sets from instruction semantics.
- Minimizer.Minimize: claims that no single character can be zeroed only for targets whose rejected zeroings stay rejected; that this condition is necessary is not claimed, and the source stops after a pass that deletes nothing without trying characters again.
- The fork server's handshake, a stop request, a SIGKILL from outside and the exit code that counts as a crash under MSAN: the protocol is modelled from the first request until a stop request.
- Queue entries are known by their place in the queue, not by pointers, and compact traces are sets of bytes, not packed bits.
- Factors are unbounded products; the source's 64-bit product can wrap around.
- Coverage.ScoringKeepsBest: entries hit the same bytes whenever they run, because a compact trace is not refreshed while it is held.
- Coverage.CullCovers: the same assumption on traces.
- Marking entries as redundant on disk, depth, `next_100`, dumb mode and the `bitmap_changed` flag.
- Simplifying traces for crashes and hangs, which is the same loop as classifying with another table.
- Stages of 16 and 32 bits of arithmetic and interesting values: there bit flips walk across byte boundaries in another order than the bits of an integer, so that skipping is not lossless.
- Effectors.ByteStages: assumes that no deterministic stage is abandoned by a stop request or by repeated timeouts; checksums of traces are any function of the data.
- Havoc.Tweak: says what each choice does and that the choice is the number drawn, not how likely the choices are.
- Score.CalculateScore: compares and multiplies over the reals, where the source uses double precision.
- Splicing, the choice of splice points and the dictionary stages of the deterministic part.
- TableLaws.TableIsLawful: speaks of bases at or above the start of the section; for bases below it the walk is modelled with its offsets from the end, and TableLaws.EveryTargetIsValid holds.
- SwitchTables.SymbolizeSwitchTables: the layout theorems speak of bases inside the section; what bases below it do to the cells is modelled, but no layout is claimed for them.
- Labels of data addresses that come to lie inside a slot are not printed, and references to them from code are not modelled.
- Tokens.LoadExtrasFile: numbers after an at sign do not overflow, and the least and greatest keyword length are not kept.
- User interface, statistics, directories, signals and file output of AFL.
