# bar2021 core, modelled in Dafny

This project models the core of the BAR 2021 PANDA examples.

**IR lifting evaluator (`ir_eval`).** Three call finders each lift the basic blocks of an execution trace: one uses VEX, one Ghidra P-code and one BAP. Each finder classifies a block's control transfer as an immediate call, a register call or a return, and predicts the call target. The prediction is stored in a per-backend result cache. Each cached block is later labelled with the address execution really reached next (its ground truth). The cache then says whether the prediction was a hit or a miss.

**Heap tracker.**
- A dictionary of live allocations, kept by the malloc and free hooks.
- A per-process snapshot of that dictionary, taken every thousand basic blocks.
- The series and legend labels the figures are drawn from.
- The guest program `tree`, which grows a random binary tree and prints it.

**Unpacker.** Two memory helpers: a chunked reader that fills unreadable chunks with zeros, and a whole-process dump.

## How the model is built

Modelling choices:
- Everything is an immutable datatype with pure functions. A Python dictionary is a map plus its insertion order (`OrderedMap.OMap`, `Cache.ResultCache`), because Python dictionaries iterate in that order.
- `last_bbr` is a handle: the cache key of the previous block. This is sound because `add` never replaces a stored entry. The handle therefore names the object the source mutates.
- An `assert` or `raise` that ends the program becomes an `Err(Fatal)` result. A caught exception becomes the branch that catches it.

Each foreign call becomes an input:
- **pyvex** becomes the statement count, the jump kind and the kind of the `next` expression.
- **pypcode** becomes the decoded instructions, each a list of (opcode, first input offset). `None` means decoding raised.
- **`bap mc` and the BIL visitor** become, per statement, the immediates and the non-memory variables seen under a jump. `HelperRaised` means the helper raised.
- **`time.process_time`** becomes the lift time of the block.
- **`random()` after `srandom`** becomes a stream `nat -> nat` with a read position.
- **`virtual_memory_read`** becomes a reader that may fail.

Modules follow the source:

| module | source |
|---|---|
| `ByteFmt` | `byte_str` and the hexadecimal formats |
| `Cache` | `cache.py` |
| `RunStats` | `update_run_stats` |
| `Signed` | `to_signed`, plus reference call-target arithmetic |
| `Board` | shared `SwitchBoard` state, `log_fail`, `update_acc_stats` |
| `Lifters` | the three `lift_block`s |
| `Driver` | `log_block` over a trace, `SBEval`, `dump_json` |
| `Fixtures` | the unit-test snippets |
| `HeapTracker` | the allocation map and snapshots |
| `HeapPlot` | series and legends |
| `RandTree` | `tree.c` |
| `MemRead` | `utility.py` |

Three behaviours of the code are easy to miss, and the model follows them:
- **Backend exceptions.** VEX does not catch exceptions from `pyvex.lift`, so they end the run. P-code catches only decoding exceptions, and BAP catches everything raised while lifting and counting.
- **BAP's bare `except:`.** It also catches the assertion failure inside `update_run_stats`. The block is then logged as a failure, after the statistics have already changed (`Lifters.BapLift`). In VEX and P-code the same assertion is fatal.
- **BAP targets.** BAP stores the signed immediate itself as the target. It is not made absolute.

## Model

| member | source | states |
|---|---|---|
| ByteFmt.ByteStr | ir_eval/cache.py:1-2 | each byte is rendered as `\x` plus two lower-case hex digits: n > 0 bytes give 4n characters, no bytes give `\x`, and the rendering parses back to exactly the input bytes |
| ByteFmt.EscapedParses | ir_eval/cache.py:1-2 | the `\xHH` groups of any byte string parse back to that byte string |
| ByteFmt.Hex16 | ir_eval/cache.py:55-62 | `{:016x}` is a minus sign exactly for negative values, then lower-case hex digits denoting the value, at least 16 characters in all (exactly 16 for values in [0, 2^64)), with a leading `0` only as padding up to that width |
| ByteFmt.Hex16Unique | ir_eval/cache.py:55-62 | any string with those properties is the `{:016x}` rendering: the format leaves no choice of text |
| ByteFmt.PyHex | heaptracker/heaptracker.py:188 | `hex(n)` is `0x` followed by lower-case hex digits denoting n, without leading zeros |
| Cache.NewResult | ir_eval/cache.py:19-30 | the verdict is "miss" iff both targets are present and differ, "hit" iff both are present and equal, and unset iff either is missing; the other fields are as given |
| Cache.Add | ir_eval/cache.py:77-84 | a new key is inserted last and nothing else changes; under a present key the stored entry is kept untouched, and the call aborts unless the two results are equal in the `__eq__` sense (arch, addr, bytes, ir_dst) |
| Cache.AddIdempotent | ir_eval/cache.py:32-43 | adding a result that differs from the stored one only in ground truth, verdict or failure flag leaves the cache exactly as the first addition left it |
| Cache.Get | ir_eval/cache.py:86-89 | the lookup finds a result iff its (address, bytes) key is present, and then it is that key's entry |
| Cache.KeySensitivity | ir_eval/cache.py:79-89 | one address with two byte strings (or one byte string at two addresses) occupies two entries, each retrievable, and the cache grows by two |
| Cache.Finalize | ir_eval/cache.py:91-94 | each entry is either unchanged or, if both targets are present and equal, changed only by setting its verdict to "hit"; keys and order are kept |
| Cache.FinalizeIdempotent | ir_eval/cache.py:91-94 | finalizing twice equals finalizing once |
| Cache.FinalizeConsistent | ir_eval/cache.py:91-94 | on a cache whose verdicts already follow the constructor's rule, finalizing changes nothing |
| Cache.Select | ir_eval/cache.py:96-106 | keeps exactly the keys whose entries are in the view, in their original order, without duplicates |
| Cache.ViewKeys | ir_eval/cache.py:96-106 | a key is listed iff its finalized entry is in the view; the list follows insertion order |
| Cache.GetList | ir_eval/cache.py:96-106 | the cache is left finalized; the list holds, in insertion order, exactly the finalized entries in the view |
| Cache.HitMissPartition | ir_eval/cache.py:96-106 | no key is both a hit and a miss; the fail list is exactly the failed lifts; on a consistent cache, the hits are exactly the entries whose targets are known and agree, and the misses exactly those whose targets are known and differ |
| Cache.OptIntToStr | ir_eval/cache.py:49-55 | an absent value gives `"None"`; a present one gives a one-element tuple whose text is the value's `{:016x}` rendering (16 digits when the value is in [0, 2^64)) |
| Cache.ToStrDict | ir_eval/cache.py:57-66 | the record holds the arch name, the address's `{:016x}` rendering (16 digits below 2^64), each target as `"None"` iff absent and otherwise its `{:016x}` rendering, and a byte string that parses back to the block's bytes: `\x` for no bytes, four characters per byte otherwise |
| RunStats.MeanStep | ir_eval/switchboard.py:119-129 | with a truthy mean, new mean × n = old mean × (n−1) + sample; otherwise the mean becomes the sample, and the reset assertion holds iff n = 1 |
| RunStats.UpdateRunStats | ir_eval/switchboard.py:114-129 | the block count grows by exactly one and the call counters do not move; the lift-time mean is updated first; if its reset assertion fails the byte mean keeps its old value, otherwise it is updated; the update succeeds iff both reset assertions hold |
| RunStats.FirstUpdateSucceeds | ir_eval/switchboard.py:78-87 | the first update of fresh statistics passes both assertions, and the means become the first sample |
| RunStats.MeansAreExact | ir_eval/switchboard.py:114-129 | with positive lift times and byte counts, no assertion fires and both running means equal the exact means of all counted samples |
| RunStats.MeanProducts | ir_eval/switchboard.py:114-129 | over any run of positive samples, each mean times the count equals the sum of the samples |
| RunStats.ZeroMeanBreaksNextUpdate | ir_eval/switchboard.py:119-129 | once a running mean is zero, the next update takes the reset branch and its `bb_cnt == 1` assertion fails |
| RunStats.ZeroLengthFirstBlock | ir_eval/switchboard.py:125-129 | a zero-byte first block passes, and the second counted lift then fails the byte mean's assertion |
| Signed.ToSigned | ir_eval/switchboard.py:374-375 | the result lies in [−2^(b−1), 2^(b−1)) and is congruent to the input modulo 2^b |
| Signed.ToSignedUnique | ir_eval/switchboard.py:374-375 | any value in that range congruent to the input is the result: the reinterpretation is unique |
| Signed.ToSignedIdentity | ir_eval/switchboard.py:374-375 | values already in range come back unchanged |
| Signed.ToSignedUnsigned | ir_eval/switchboard.py:374-375 | for 0 ≤ v < 2^b the result is v − 2^b iff v ≥ 2^(b−1), and v otherwise |
| Signed.X86ForwardFixture | ir_eval/test.py:18-25 | an `e8 2c 13 00 00` call at offset 6 of a block at 0 targets 0x1337 (next instruction plus sign-extended rel32) |
| Signed.X86BackwardFixture | ir_eval/test.py:45-52 | an `e8 be ec ff ff` call at offset 6 of a block at 0x266e also targets 0x1337 |
| Signed.ArmBlFixture | ir_eval/test.py:62-70 | the `bl` `c9 04 00 eb` at offset 12 of a block at 0 targets 0x1338 (PC + 8 plus sign-extended imm24:'00') |
| Board.NewBoard | ir_eval/switchboard.py:66-87 | a new finder has an empty cache, the first-block flag set, no previous block and zero counters, and satisfies the board invariant |
| Board.Record | ir_eval/switchboard.py:218-226 | a new key is stored last with the constructor's result; for a present key the call succeeds iff arch and predicted target agree, and then leaves the board as it was; only the cache changes, and the invariant is kept |
| Board.LogFail | ir_eval/switchboard.py:131-141 | a new block gets a failure entry with no targets and no verdict; every other entry, the counters, the flag and the handle are untouched |
| Board.UpdateAccStats | ir_eval/switchboard.py:105-110 | the previous block's entry gets the true target; its verdict becomes "miss" iff a prediction exists and differs, "hit" iff it exists and agrees, and stays as it was without one; no other entry or field changes, and the invariant is kept |
| Board.Bump | ir_eval/switchboard.py:199-211 | each call and return counter grows by exactly the verdict's increment; the block count and means are untouched |
| Board.Commit | ir_eval/switchboard.py:218-226 | a successful lift stores a non-failure entry with the verdict's target and no ground truth, and adds the verdict to the counters |
| Board.CommitFail | ir_eval/switchboard.py:184-188 | a failed lift stores a failure entry without a target and keeps the given statistics |
| Lifters.VexVerdict | ir_eval/switchboard.py:197-216 | a call through a constant is one immediate call to that constant; a call through a temporary is one register call; a return is one return; other jump kinds count nothing; a call through anything else aborts |
| Lifters.VexLift | ir_eval/switchboard.py:175-226 | a cached block changes nothing; otherwise the lift is counted first (empty IRSBs included); an empty IRSB gives a failure entry; otherwise the counters grow by the verdict and the target is stored; it aborts iff a reset assertion fails or the call target is unexpected |
| Lifters.PcodeScan | ir_eval/switchboard.py:471-532 | the walk stops only at an instruction holding a call or return |
| Lifters.PcodeScanFirst | ir_eval/switchboard.py:471-532 | the first instruction that raises or holds a call or return decides the outcome; the walk runs out iff there is none |
| Lifters.PcodeScanIgnoresSuffix | ir_eval/switchboard.py:471-532 | instructions after the deciding one are never decoded: appending any suffix changes nothing |
| Lifters.CountOps | ir_eval/switchboard.py:482-514 | the count is the number of operations with that opcode, zero iff there are none |
| Lifters.LastCallTarget | ir_eval/switchboard.py:496-500 | absent iff the instruction has no `CALL`; otherwise the first input of a `CALL` that no later `CALL` follows |
| Lifters.PcodeVerdict | ir_eval/switchboard.py:482-514 | every `CALL`, `CALLIND` and `RETURN` of the stopping instruction bumps its counter; a target exists iff a `CALL` does |
| Lifters.PcodeLift | ir_eval/switchboard.py:450-547 | a cached block changes nothing; a decoding exception logs a failure without counting the lift; otherwise the lift is counted (both running means updated), the stopping instruction's verdict bumps the counters and sets the target, and a walk that runs out stores no target |
| Lifters.Classify | ir_eval/switchboard.py:294-310 | one immediate is an immediate call whose target is the immediate read as signed, whatever registers come with it; with no immediate, one register is a register call; more than one immediate, or no immediate and more than one register, aborts; returns are never counted |
| Lifters.FirstLoud | ir_eval/switchboard.py:290-310 | the index of the first statement with a jump operand: every earlier statement is silent |
| Lifters.BapScan | ir_eval/switchboard.py:287-310 | the first statement with a jump operand decides the verdict; with none the block counts nothing; the return counter never moves |
| Lifters.BapLift | ir_eval/switchboard.py:258-355 | a cached block changes nothing; a raising helper logs a failure without counting; a failed reset assertion or empty IR logs a failure after counting; otherwise the first deciding statement gives the counters and target; `ret_cnt` never changes |
| Driver.LiftBlock | ir_eval/switchboard.py:89-91 | each backend leaves a cached block alone, and otherwise stores the block's key without touching any earlier entry |
| Driver.LogBlock | ir_eval/switchboard.py:93-103 | the first block labels nothing; later, only the previous block's entry changes: it gets this address as its true target and a verdict that compares it with its prediction; an uncached block is lifted from this block's input on the board so prepared, and the call fails exactly when that lift does, with its error, statistics and new entry; the handle then names this block and the invariant is kept |
| Driver.FirstSightPrediction | ir_eval/switchboard.py:93-103 | after a whole trace, each key's predicted target and failure flag are those the lifter produced from the input of the key's first occurrence |
| Driver.RunKeepsPrediction | ir_eval/switchboard.py:105-110 | logging more blocks never changes a stored entry's predicted target or failure flag, only its true target and verdict |
| Driver.GroundTruth | ir_eval/switchboard.py:97-106 | reference labelling: absent iff the key never occurs before the last block; otherwise the address after its most recent non-final occurrence |
| Driver.LogAllLabels | ir_eval/switchboard.py:93-110 | after a trace, the cache holds exactly the trace's keys and every entry's true target is its reference label |
| Driver.RunLabels | ir_eval/switchboard.py:93-110 | the labelling holds after every prefix of a trace, starting from any board labelled for the empty trace |
| Driver.LogBlockLabels | ir_eval/switchboard.py:93-110 | logging one more block turns the labelling of a trace into the labelling of the extended trace |
| Driver.TrueDstAfterLog | ir_eval/switchboard.py:93-110 | after one more block, each entry's true target is its reference label for the extended trace |
| Driver.LogAllVerdicts | ir_eval/switchboard.py:105-110 | after a trace, every predicted entry with a label is a miss iff its prediction differs from the label |
| Driver.DistinctTraceLabels | ir_eval/switchboard.py:93-110 | with pairwise distinct keys, each block is labelled with the next block's address, and the last block stays unlabelled |
| Driver.DistinctGroundTruth | ir_eval/switchboard.py:97-106 | with distinct keys, the reference label of block i is block i+1's address, and the last block has none |
| Driver.NewEval | ir_eval/switchboard.py:557-563 | the driver starts one well-formed VEX, P-code and BAP finder for the architecture |
| Driver.EvalLiftBlock | ir_eval/switchboard.py:573-576 | lifting on all three finders stores the key on each and labels nothing |
| Driver.LiftUnlabelled | ir_eval/switchboard.py:573-576 | a lift alone keeps every existing entry, the flag and the handle, and stores the block's key |
| Driver.EvalLogBlock | ir_eval/switchboard.py:578-581 | logging through the driver succeeds iff it succeeds on each finder, and gives each finder's own result |
| Driver.EvalLogAllSplit | ir_eval/switchboard.py:578-581 | a trace logged through the driver gives, on each backend, the board that backend reaches on its own |
| Driver.CrossBackendAgreement | ir_eval/switchboard.py:578-581 | after a trace, the three caches hold the same keys and agree on every key's true target |
| Driver.DumpJson | ir_eval/switchboard.py:583-596 | the object key is `ir_` plus the IR name; the records are the rendered miss or fail list in insertion order; any other category aborts |
| Driver.Render | ir_eval/switchboard.py:589-594 | one record per listed entry, in list order, each that entry's `to_str_dict` |
| Driver.DumpedMissesDiffer | ir_eval/switchboard.py:589-594 | on a well-formed finder, every dumped miss carries both targets as tuples with different values, and every dumped failure has no predicted target |
| Fixtures.CallImmInsn | ir_eval/test.py:18-25 | the immediate-call snippet's call sits at offset 6 and targets 0x1337 |
| Fixtures.VexCallImm | ir_eval/test.py:83-87 | VEX on the immediate-call snippet: one immediate call, no register call or return, one block, target 0x1337 |
| Fixtures.VexCallReg | ir_eval/test.py:93-97 | VEX on a register call: one register call and no target |
| Fixtures.VexRet | ir_eval/test.py:98-102 | VEX on a return: one return and no target |
| Fixtures.PcodeCallImm | ir_eval/test.py:83-87 | P-code on the immediate-call snippet, whatever follows the call: one immediate call, target 0x1337 |
| Fixtures.BapCallImm | ir_eval/test.py:83-87 | BAP on the immediate-call snippet: one immediate call, target 0x1337 |
| Fixtures.BapNegativeOffset | ir_eval/switchboard.py:395-401 | a 32-bit immediate with its top bit set is reported as the negative offset −0x133d |
| HeapTracker.AddAlloc | heaptracker/heaptracker.py:70-72 | the key (asid, address) maps to (size, name) and replaces any earlier value; a present key keeps its place in the iteration order and a new key goes last; no other key changes |
| HeapTracker.RemAlloc | heaptracker/heaptracker.py:74-77 | a recorded key is removed, and the remaining keys keep their values and their iteration order (the order with that key dropped, a subsequence of the old one); an unknown key is a no-op |
| HeapTracker.AddThenRem | heaptracker/heaptracker.py:70-77 | a malloc of a fresh key followed by its free restores the dictionary, iteration order included |
| HeapTracker.FirstOf | heaptracker/heaptracker.py:82-84 | the position of the process's first allocation in iteration order |
| HeapTracker.Aggregate | heaptracker/heaptracker.py:82-87 | after any prefix of the allocations, a process appears iff it has an allocation there, named after its first one, with the sum of its sizes and the number of its allocations |
| HeapTracker.AggregateStep | heaptracker/heaptracker.py:82-87 | one more allocation keeps that summary true |
| HeapTracker.ReportAllocs | heaptracker/heaptracker.py:79-92 | the snapshot lists exactly the processes with live allocations; each has the name of its first allocation, its total size and its allocation count |
| HeapTracker.NewTracker | heaptracker/heaptracker.py:68-69 | no allocations, no snapshots, counter 0 |
| HeapTracker.ReportEvery1000 | heaptracker/heaptracker.py:95-102 | the counter stays below 1000; exactly on the thousandth block one snapshot of the live allocations is appended and the counter restarts; the allocations are untouched |
| HeapTracker.CounterTracksBlocks | heaptracker/heaptracker.py:95-102 | after any event sequence with n blocks, the counter is n mod 1000 and exactly n div 1000 snapshots exist |
| HeapTracker.StepCounter | heaptracker/heaptracker.py:95-102 | mallocs and frees leave the counter and snapshots alone; a block moves the counter by one modulo 1000 and snapshots when it wraps |
| HeapPlot.Discover | heaptracker/heaptracker.py:169-173 | every process seen in any snapshot gets a zero series as long as the recording, plus the name it has in its first snapshot; no other process does |
| HeapPlot.Fill | heaptracker/heaptracker.py:177-179 | entry t of each series is the property's value in snapshot t, or 0 where the process is absent |
| HeapPlot.FillSnapshot | heaptracker/heaptracker.py:178-179 | snapshot t writes entry t of each listed process and nothing else |
| HeapPlot.BuildSeries | heaptracker/heaptracker.py:164-179 | the series exist exactly for processes seen in some snapshot, are as long as the recording, and hold the property where the process is listed and 0 elsewhere; names come from first appearances |
| HeapPlot.Legend | heaptracker/heaptracker.py:185-188 | "Kernel" for asid 0; otherwise the recorded name if there is one; otherwise `hex(asid)` |
| HeapPlot.LegendFromFirstSnapshot | heaptracker/heaptracker.py:171-173 | the `hex(asid)` fallback never fires: every plotted process has the name from its first snapshot |
| RandTree.GetRandNonFullNode | heaptracker/tree/tree.c:34-42 | whatever `random()` returns, the result is a node of the tree with a free child, reached in fewer steps than the tree's height, using one random value per step |
| RandTree.Attach | heaptracker/tree/tree.c:59-72 | hanging a tree in a free slot adds exactly its values and size |
| RandTree.AttachAt | heaptracker/tree/tree.c:59-72 | the attached tree sits at the chosen path and side |
| RandTree.ChooseSide | heaptracker/tree/tree.c:58-73 | under a non-full node the side is left iff (c % 4 = 0 and left is free) or (c % 4 ≠ 0 and right is taken), and the chosen slot is free, so neither `assert` fires |
| RandTree.HangLeaf | heaptracker/tree/tree.c:54-73 | the new node is a leaf holding i in a slot that was empty; the root is unchanged; values grow by {i} and size by one |
| RandTree.InsertNode | heaptracker/tree/tree.c:54-73 | one loop iteration hangs a leaf holding i under a non-full node, on the side the direction rule picks, and adds exactly {i} |
| RandTree.Grow | heaptracker/tree/tree.c:48-74 | after k iterations, for any random values, the head is still the root, and the tree has k+1 nodes holding -1 and 0..k-1 each exactly once |
| RandTree.TraverseIsPreorder | heaptracker/tree/tree.c:17-31 | the data lines are the preorder listing (node, left, right), each at the node's depth |
| RandTree.PreorderValues | heaptracker/tree/tree.c:17-31 | the listing holds exactly the tree's values |
| RandTree.ListingAfter | heaptracker/tree/tree.c:45-75 | after k iterations the printout has k+1 data lines, starting with -1 at depth 0, holding -1 and 0..k-1 each once |
| RandTree.Program | heaptracker/tree/tree.c:45-76 | the program prints 51 data lines, the first being the head's -1 at depth 0 |
| MemRead.ReadMemory | unpacker/utility.py:6-20 | reads size / p + 1 chunks at start, start + p, … (a failed chunk becomes p zeros), never fails, returns at most `size` bytes, and nothing for size 0 |
| MemRead.ReadMemoryContent | unpacker/utility.py:12-20 | when each readable chunk returns p bytes, the result is exactly `size` bytes, and byte q·p + o is byte o of chunk q where that chunk is readable, 0 where it is not |
| MemRead.ReadMemorySlot | unpacker/utility.py:12-20 | byte q·p + o of the result is byte o of chunk q |
| MemRead.ChunksLength | unpacker/utility.py:14-19 | k chunks of p bytes make k·p bytes |
| MemRead.AsWrittenAllOrNothing | unpacker/utility.py:29-36 | as written, a mapping contributes its full contents or nothing |
| MemRead.ReadAllAsWrittenWhole | unpacker/utility.py:22-37 | as written, the dump is the concatenation, in mapping order, of every mapping that can be read whole |
| MemRead.CorrectedKeepsWholeDumps | unpacker/utility.py:28-36 | when every mapping can be read whole, the corrected loop gives the same dump as the loop as written |
| MemRead.PartialMappingDropped | unpacker/utility.py:29-36 | a two-page mapping whose first page alone is readable contributes nothing as written, and its first page with the corrected loop |
| MemRead.CorrectedLongestReadable | unpacker/utility.py:29-36 | the corrected loop keeps the first (longest) readable size it tries, and gives nothing only if no tried size is readable |

## Left out

- The lifters themselves (pyvex, pypcode with its Sleigh set-up, `bap mc`) and the BAP ADT visitor's dispatch are foreign code. Their outputs are inputs of the model.
- VEX exceptions raised by `pyvex.lift`: the source does not catch them and they end the run. The VEX input has no such case.
- The architecture maps and `Arch[arch]` name lookup: the architecture is a datatype, so an unknown name cannot occur.
- Clocks: each lift time is a real parameter.
- RunStats.UpdateRunStats: the means are exact reals, not Python floats, so rounding is not modelled.
- Verbose printing, `print(vars(result))`, `__str__` and `dump_result`: text output only.
- `BBResult.__hash__` is not modelled. It would raise (`tuple` with four arguments), but the cache never calls it.
- The JSON key names of `to_str_dict` (`arch`, `addr`, `ir_dst`, `true_dst`, and `bytes:` with its trailing colon, cache.py:60-66): the record's fields are named in `Cache.StrDict`, and JSON serialisation is not modelled.
- The file name and the JSON writing in `dump_json`, and `dump_misses`: I/O. `Driver.DumpJson` returns the object's key and records.
- The P-code lifter's `self.call_trgt = bbr.ir_dst` on a cached block sets an attribute nothing reads.
- PANDA hooks and callbacks, `hook_ret_with_args`, `add_hooks_if_necessary`, `setup_hooks` and `drive_guest`: guest control. Their effect reaches the model as `Malloc`, `Free` and `Block` events.
- The matplotlib drawing and saving (heaptracker.py:181-197). Only the series and legend labels are modelled.
- HeapPlot.Discover: the iteration order of the series map (first-seen order, which decides the order lines and legend entries are drawn in, heaptracker.py:171-172 and 185) is not stated; the contract covers which processes get a series, its zeros and its name.
- In `tree.c`, `srandom(atoi(argv[1]))` and `random()` become a stream of values read at an advancing position. `malloc` never returns NULL. The printed text (spaces, `printf`) becomes `Line` values carrying the depth.
- MemRead.ReadMemory: it requires a positive chunk size. With zero or a negative size the source loop never ends, because the read address never passes the end.
- MemRead.ReadMemoryContent: it requires that every readable chunk returns exactly p bytes. Short reads are outside what `virtual_memory_read` promises.

## Findings

| source | as written | input that shows it | evidently intended | confidence | as-written member | corrected member |
|---|---|---|---|---|---|---|
| unpacker/utility.py:30-36 | the retry loop shrinks `size` by a page after each failure, but every attempt reads `mapping.size` bytes again. The retries repeat the same failing read, so a partly unmapped mapping contributes nothing | a mapping at 0 of 0x2000 bytes whose first page alone is readable | read `size` bytes on each attempt, keeping the longest readable prefix (the comment says it checks whether pages at the end are unmapped) | not executed | MemRead.PartialMappingDropped | MemRead.CorrectedLongestReadable |
