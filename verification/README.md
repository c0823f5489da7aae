# The rl_cpu toolchain and kernel, in Dafny

This project models the parts of the repository where meaning can get lost between one layer and the next, and proves
that it does not, or says exactly when it does. The target is a 16-bit word machine with a stack: a C compiler (lcc)
lowers trees to postfix text, a translator turns the text into operations and fuses them, an assembler and a linker
place them, a simulator defines what they do, and a small kernel with heap, block cache, filesystem and scheduler runs
on the result.

| file | what it models |
|---|---|
| `Words.dfy` | 16- and 32-bit words, bitwise operators |
| `Lburg.dfy` | the tree labeller that a rule list denotes: dynamic programming with chain-rule closure |
| `Simp.dfy`, `Folding.dfy` | algebraic simplification of integer trees, and what the operators mean |
| `Dag.dfy`, `Trees.dfy`, `Builder.dfy`, `Reads.dfy`, `Listnodes.dfy` | value-numbered nodes with kill sets; trees lowered to roots with labels and jumps; volatile loads |
| `Roots.dfy`, `Late.dfy` | running the list of roots, with nodes evaluated when built or when first used |
| `Switch.dfy`, `Cases.dfy` | cases as written and as recorded, dense buckets, binary search, jump tables |
| `Xbytecode.dfy`, `Calls.dfy`, `Compiled.dfy` | printing of trees, calls and argument areas, whole procedures, run on the machine |
| `Trans2.dfy`, `Peephole.dfy` | the line translator and its two optimising passes |
| `Sim.dfy`, `Simulated.dfy`, `Balance.dfy` | the machine; translated code in code memory, run on it; stack heights |
| `Assembler.dfy`, `Contents.dfy`, `Linker.dfy`, `Toolchain.dfy` | words of a program, label numbers, label tables, stripping, layout, relocation, and both together |
| `Heap.dfy` | the first-fit heap over headers in memory |
| `Blk.dfy`, `Bitmap.dfy`, `Layout.dfy`, `Rlfs3.dfy` | block cache, bitmap, inodes, files |
| `Kernel.dfy` | scheduler and deferred system calls |

Code that updates fields, arrays or lists in place is a class or a method with loops, tied by its contract to a function
of the old state; the properties are lemmas about those functions, or invariants (`Valid`) that every method keeps.

Where the code does not do what its purpose asks, the model follows the code, a lemma gives an input that shows it, or
the condition under which it is right is proved to be the exact one: `Peephole.DirectivesKept`, `Xbytecode.LocalOperand`,
`Dag.KillIsSound`, `Listnodes.LateLoadDiffers`, `Switch.SwitchCorrect`, `Cases.NarrowCases`, `Heap.Allocator.Malloc`, `Linker.StripKeepsKnown`,
`Linker.ShiftedLocalIff`,
`Linker.ExportedIff`, `Simp.SimplifyKeepsProper`, `Simp.UncleanChangesValue`, `Simp.ExtendExact`, `Simp.SubiExact`, `Rlfs3.CutIff`, and the
two offset cases of `Rlfs3.FileSystem.Read` and `Write`.

Words used below: a run is *tame* while no instruction takes words from below its evaluation stack and none reads or
writes the stack's live slots through an address; *live* memory is all memory but the dead words of the evaluation
stack at and above SP. *Ownership* of a filesystem image: the bitmap's used set is exactly the reserved blocks, the
inodes and their data blocks, no block has two owners, and the nonzero indices of an inode form a prefix. *Contents
seen by readers* of the block cache are the cached blocks over the disk. A tree is *steady* if, while one operand waits
for the next to be listed, nothing in the next writes what a load of the first reads, and no label is placed; a list of
roots is *calm* if no root uses a node from before a label or first uses a load that a root since its making may have
written.

## Model

| member | source | states |
|---|---|---|
| `Lburg.RuleTable.AddRule` | lcc/lburg/lburg.c:243-279 | Appending a rule keeps the lists per left-hand side, per terminal and per chain source exactly what the rule list says, and gives the rule the number under which its left-hand side can find it again |
| `Lburg.DecodePacked` | lcc/lburg/lburg.c:605-613 | The packed number of every rule is in range of the decode table of its left-hand side, which gives back exactly that rule |
| `Lburg.Record` | lcc/lburg/lburg.c:590-602 | A cheaper cost is recorded and passed on until every chain rule out of a lowered nonterminal is satisfied; costs only go down, every recorded cost belongs to a derivation, and the nested calls end because the total of the costs falls |
| `Lburg.Closure` | lcc/lburg/lburg.c:416-432 | After trying all chain rules out of a nonterminal none of them can improve a cost any more |
| `Lburg.LabelNode` | lcc/lburg/lburg.c:346-413 | Trying all rules of the operator over optimally labelled children makes the node optimal: least cost per nonterminal, rule numbers of a cheapest derivation |
| `Lburg.Label` | lcc/lburg/lburg.c:515-531 | For every tree and rule list: labelling succeeds exactly for trees over declared operators, and then the cost left for each nonterminal in each node is the minimum over all derivations by pattern and chain rules, or 0x7fff if that minimum is not below it, with rule numbers that select such a derivation; among rules of an operator that cost the same the first in the grammar is chosen, among chain rules between the same nonterminals the last |
| `Lburg.TermFair` | lcc/lburg/lburg.c:360-413 | A rule of the operator is recorded only if every one before it in the grammar costs more |
| `Lburg.ChainFair` | lcc/lburg/lburg.c:262-267 | A chain rule is recorded only if every one behind it between the same nonterminals costs more |
| `Lburg.KidsMatchNts` | lcc/lburg/lburg.c:471-483 | The i-th kid path of a matched pattern leads to exactly the subtree that the i-th nonterminal of the rule derives |
| `Lburg.SelectsUnique` | lcc/lburg/lburg.c:615-622 | The recorded rule numbers select at most one derivation: the reducer has no choice |
| `Sim.Cpu.Execute` | sim/sim.cpp:386-780 | Every modelled instruction, executed field by field on the registers and the memory array, yields exactly the next state of the specification machine, with all addresses and words modulo 2^16 and the 19-bit PC |
| `Simulated.BranchCompares` | sim/sim.cpp:552-651 | With a pushed before b, each of the ten branches goes to its block exactly if its comparison of a with b holds, of the signed numbers the words stand for or of the words themselves, and both are gone |
| `Simulated.PickIs` | sim/sim.cpp:430-443 | `iaddrs` with -k pushes the k-th word from the top, and `dup` the first |
| `Simulated.ReserveRelease` | sim/sim.cpp:741-752 | `alloc` and `discard` of the same count leave the state as it was |
| `Sim.Cpu.ExecuteCall` | sim/sim.cpp:652-726 | A call shifts k reserved words in, pushes both halves of the PC, AP and BP, and enters at a whole block |
| `Sim.Cpu.ExecuteRet` | sim/sim.cpp:727-732 | A return reloads BP, AP and both halves of the PC from the four words below BP and drops the frame |
| `Trans2.Translator.ParseOp` | binutils/trans2.cpp:153-479 | Each printed line appends exactly the operations of its translation to the output and moves the argument counter, also for the unrolled constant shifts that take the count back off the output; it fails exactly on the lines that are not accepted |
| `Trans2.Translator.Optimize` | binutils/trans2.cpp:489-522 | The in-place loop with its erasing iterator ends, and computes the pairwise fusion of the list |
| `Trans2.Translator.Optimize2` | binutils/trans2.cpp:524-548 | The second in-place loop ends, and deletes load/store pairs to the same address, looking again at entries that have come together |
| `Peephole.OptimizeIsFused` | binutils/trans2.cpp:489-522 | The iterator form of the first pass equals the recursive form in which a fused pair never fuses again |
| `Peephole.LabelsSplit` | binutils/trans2.cpp:493-499 | No operation is ever fused into or across a label: the pass works on both sides of a label separately |
| `Peephole.RunFused` | binutils/trans2.cpp:489-522 | From related states, any code of any program that runs tamely ends the same way, in related states, after the first pass over program and code; behind every call it goes on in whatever related states the callee returns to |
| `Peephole.RunCut` | binutils/trans2.cpp:524-548 | Deleting one self-store from program and code is not seen by any tame run, nor by what runs behind its calls |
| `Peephole.PassesKeepMeaning` | binutils/trans2.cpp:489-548 | Wherever a tame run of a translated list starts, in states that differ in dead words only, the code after one pass and after both passes makes the same calls in related states, goes on behind each of them in any related states the callee returns to, and ends in the same way with the same SP, BP, AP and the same memory outside dead stack words |
| `Peephole.DirectivesKept` | binutils/trans2.cpp:493-499 | The first pass leaves all directives as they are if and only if no operation it could fuse directly follows a directive whose number is that of addrf, addrl, cnst or addrs |
| `Peephole.FirstPassIsDone` | binutils/trans2.cpp:489-522 | After the first pass no instruction stands directly behind an address or constant that it could take as operand or target |
| `Peephole.SecondPassIsDone` | binutils/trans2.cpp:524-548 | After the second pass no argument is stored where it has just been loaded from, also where entries have come together by deletions |
| `Peephole.LoadAfterProcVanishes` | binutils/trans2.cpp:493-499 | Counterexample: an `indir` directly behind `proc` is fused into the directive and lost |
| `Peephole.LabelsAreSafe` | binutils/trans2.cpp:493-499 | A label directive is never one of those the first pass can fuse with |
| `Xbytecode.TranslateTree` | lcc/src/xbytecode.c:81-143 | For every tree of the subset, the postfix lines printed for it are accepted and translate to the tree's code behind whatever was output before |
| `Xbytecode.LocalOperand` | binutils/trans2.cpp:224-236 | The address of a local is its offset plus the argument area if and only if its text does not carry a negative offset, which the translator loses |
| `Xbytecode.RunExpr` | lcc/src/xbytecode.c:81-143 | For every typed tree, running its code pushes exactly its value modulo 2^16 or 2^32 and changes no live word, whatever code follows |
| `Xbytecode.RunAssignment` | lcc/src/xbytecode.c:81-143 | The code of an assignment does to live memory what the assignment does |
| `Xbytecode.RunCompare` | lcc/src/xbytecode.c:81-143 | A comparison tree jumps to its label exactly when the comparison of the two values holds, else falls through |
| `Compiled.TranslateRoots` | lcc/src/xbytecode.c:152-159 | The lines printed for a list of roots are accepted and translate to the code of the roots, with every argument at the counter the lines before it have left |
| `Compiled.BehindIsCodeAt` | sim/sim.cpp:553-651 | With labels at different addresses, the machine goes on behind a label exactly where the list places it |
| `Compiled.MeantRuns` | binutils/trans2.cpp:153-479 | For every list of assignments, arguments, tests, jumps, labels, calls and returns: from any state that agrees on live memory the translated code makes the same calls, goes on behind them, and ends as the list means, with the same live memory |
| `Compiled.CompiledProcedure` | binutils/trans2.cpp:489-548 | For every procedure: entered through its label, the translated code, the once and the twice optimised code all do what the list of roots means, on every live word, at every call and at the end |
| `Compiled.Compile` | binutils/trans2.cpp:587-603 | The main loop translates a procedure line by line and runs both passes over the result |
| `Simulated.RunSimulated` | sim/sim.cpp:386-780 | A run of entries laid out in code memory, with labels at whole blocks, is a run of the simulator: the same states at its end and at every call, which is entered with the way back behind it, and every jump goes to the place of its label |
| `Simulated.SimulatedProcedure` | binutils/trans2.cpp:489-548 | For every procedure: entered at its block, the simulator does what the list of roots means, on the code as translated and after either pass |
| `Simulated.LabelPasses` | binutils/assembler.cpp:107-112 | Falling into a label the simulator runs through the zero words before it, which are `nop` |
| `Balance.LineBalanced` | binutils/trans2.cpp:94-151 | Every accepted line, library calls, conversions and unrolled shifts included, moves the stack by the words of its result less those of its operands |
| `Balance.AllBalanced` | binutils/trans2.cpp:153-479 | and so do all lines together |
| `Balance.DeltaIs` | sim/sim.cpp:386-780 | The words an instruction is counted with are what the simulator does to SP |
| `Balance.DeltaOfCall` | sim/sim.cpp:652-732 | and for a call the k result words, once the frame is gone again |
| `Trans2.Translator.GenProcHeader` | binutils/trans2.cpp:22-40 | The label, the space for locals and arguments unless both are 0, and an argument counter of 0 |
| `Calls.PCRoundTrip` | sim/sim.hpp:1157-1179 | Every 19-bit program counter survives the split into block number and position |
| `Calls.EnterFrame` | sim/sim.cpp:652-726 | What a call leaves in its frame word by word, with everything below untouched |
| `Calls.RunKeeps` | sim/sim.cpp:652-732 | A balanced activation that leaves its saved words alone ends with the BP, AP and guarded words it started with, whatever calls are nested in it |
| `Calls.CallReturns` | sim/sim.cpp:652-732 | A call, a body with any balanced tree of calls nested in it, and the return restore AP, BP and the full PC, leave SP k words higher, and change no guarded word |
| `Calls.ResultDelivered` | binutils/trans2.cpp:138-151 | The result words on the callee's stack before its RET are on top of the caller's stack after the call |
| `Calls.RetEntriesDecode` | binutils/trans2.cpp:138-151 | The operations emitted for RET store the result words where the frame has reserved them and return |
| `Calls.ArgEntriesDecode` | binutils/trans2.cpp:419-447 | The operations emitted for ARG store through the argument area at the running counter |
| `Calls.ArgumentsStored` | binutils/trans2.cpp:419-447 | After the arguments of a call have been passed one after the other, the argument area holds all their words in order and everything guarded before is untouched; an argument expression may run calls of its own as long as it leaves the words already stored alone |
| `Calls.PositionIsCounter` | binutils/trans2.cpp:419-447 | With the calls in argument expressions printed before the first ARG line, as the compiler lists them, the counter of the translator at each ARG line is the sum of the sizes before it |
| `Calls.CounterThrough` | binutils/trans2.cpp:440-446 | Lines of an argument expression leave the counter alone if and only if there is no call among them or it was 0: every call line resets it |
| `Calls.PassAllAt` | binutils/trans2.cpp:419-447 | That sum is the position at which the argument is stored |
| `Calls.CalleeSeesArguments` | binutils/trans2.cpp:419-447 | `addrf i` and a load in the callee read the i-th argument word of the caller |
| `Calls.PeakCovers` | lcc/src/xbytecode.c:184-204 | The size computed from the node pass is an upper bound of the argument counter plus size at every ARG that a later call closes |
| `Calls.Backend.Gen02` | lcc/src/xbytecode.c:184-196 | The maximum of the argument offsets over a tree, in the order of the pass, equals its specification |
| `Calls.Backend.AreaSize` | lcc/src/xbytecode.c:165-182 | The number of words asked for in the proc line is the maximum over all trees of the function |
| `Calls.ArgumentsFit` | lcc/src/xbytecode.c:165-204 | Every argument is stored below the argument area's end and so below every local: the compiler's size and the translator's counter agree |
| `Dag.KillIsSound` | lcc/src/dag.c:83-96 | After `killnodes(p)` every surviving node still denotes its value after any store through p if and only if no surviving load through another symbol overlaps the words stored |
| `Dag.ComputedSymbolGoesStale` | lcc/src/dag.c:83-96 | Counterexample: a load through a computed symbol inside p survives a two-word store through p and keeps the old value |
| `Listnodes.Lister.GetNode` | lcc/src/dag.c:53-67 | A node that is handed out denotes in the current store the value of a freshly built one; an equal node still held is reused and none is made |
| `Listnodes.Lister.KillNodes` | lcc/src/dag.c:83-96 | The walk over the bucket chains removes exactly the loads that a store to p kills, in every chain |
| `Listnodes.Lister.Reset` | lcc/src/dag.c:97-100 | Nothing is shared across the point |
| `Listnodes.Lister.ListNodes` | lcc/src/dag.c:102-378 | For every tree and pair of labels: run at the values its nodes were built with, the list of roots does to the store and the flow exactly what the tree means, so a condition jumps to tlab exactly when true or to flab exactly when false and else falls through, and right operands run only when needed; the answer node holds the value of the tree, and every node still held is good in the current store; a steady tree keeps the list calm and leaves its answer so that evaluating it only at the root that uses it gives the same value; the nodes spell the tree, every volatile load is a node made where the tree reads, in the order of the reads and in no bucket, and a condition outside others leaves no node from before it in a bucket |
| `Reads.ReadVolatile` | lcc/src/dag.c:350-352 | The load of a volatile object is a node that was not there before, is in no bucket, and stands where the tree has it |
| `Reads.NeverAgain` | lcc/src/dag.c:350-352 | No tree that is listed later is answered with a volatile load made before |
| `Reads.TwoReads` | lcc/src/dag.c:344-352 | An operation on two volatile loads has two different nodes as operands, also when both read the same object |
| `Roots.CompareIs` | lcc/src/dag.c:239-262 | The six comparisons of roots, by the distance of the operands |
| `Dag.StoreThenLoad` | lcc/src/dag.c:272-316 | What an assignment stores is what a load of the same words reads, and words apart from them stay |
| `Listnodes.Lister.ListAnd` | lcc/src/dag.c:116-125 | AND jumps or falls through by the truth of both operands and evaluates the right one only when the left is true |
| `Listnodes.Lister.ListOr` | lcc/src/dag.c:126-138 | OR the same with the roles of the labels exchanged |
| `Listnodes.Lister.ListAsgn` | lcc/src/dag.c:272-316 | An assignment stores its value, its own value is what the store has then, and loads it may change are handed out no more; target and source are calm at the store if the source writes nothing the target waits to read |
| `Listnodes.Lister.ListCall` | lcc/src/dag.c:206-233 | A call runs after its arguments, drops all sharing, and its node is the value returned; the called address is calm if the arguments write nothing it waits to read |
| `Listnodes.Lister.LabelNode` | lcc/src/dag.c:390-396 | A label directly behind another is equated with it, otherwise placed; the flow that waits for it goes on here and nothing stays shared |
| `Roots.RunEquated` | lcc/src/dag.c:390-396 | Equating a label that has not been placed changes no run of the list |
| `Listnodes.Lister.Walk` | lcc/src/dag.c:39-51 | The list handed to code generation does what the tree means; for a steady tree it does so also when every node is evaluated only at the first root that uses it and kept in a temporary from there, whatever is in temporaries whose assignment was jumped over; nothing is shared beyond the list; the volatile loads of the tree are as many nodes |
| `Late.RunsAlike` | lcc/src/dag.c:554-664 | A list in which no root uses a node from before a label, or first uses a load that a root since its making may have written, runs the same with nodes evaluated late and kept in temporaries as at built values |
| `Trees.PureIsSteady` | lcc/src/dag.c:554-664 | Trees without assignment and call are steady |
| `Trees.PureCondIsSteady` | lcc/src/dag.c:116-138 | So are conditions over comparisons of such trees |
| `Trees.PureAsgnIsSteady` | lcc/src/dag.c:272-316 | So are assignments between such trees |
| `Listnodes.LateLoadDiffers` | lcc/src/dag.c:554-664 | Counterexample: for `y = x + f()`, where f stores to x, the list run at built values adds the old x as the tree says, and with nodes evaluated late it adds the new x |
| `Trees.PureKeepsStore` | lcc/src/dag.c:102-115 | A tree without assignment and call leaves the store alone |
| `Blk.SyncStep` | rl_os/kernel/blk.c:15-27 | Writing back and releasing one entry changes neither what readers see nor who holds what |
| `Blk.ReturnsIff` | rl_os/kernel/blk.c:29-55 | `bread` comes to an end if and only if the block is cached, an entry is free or some entry has no holder, and then within two turns |
| `Blk.Cache.Sync` | rl_os/kernel/blk.c:15-27 | All unheld entries are released, exactly the modified ones among them are written to their devices, and the cached-over-disk contents are unchanged; what nobody holds is on its device |
| `Blk.Cache.Bread` | rl_os/kernel/blk.c:29-55 | The entry returned holds the block's current contents, is held once more, was held before exactly if the block was, contents seen by readers do not change, and no entry that is held is evicted; at most one entry per device and block |
| `Blk.Cache.Bfree` | rl_os/kernel/blk.c:57-60 | One hold less on that entry, nothing else |
| `Blk.Cache.Change` | os/blk.c:16-61 | A holder's write changes what readers see of that one block only |
| `Bitmap.MarkedTest` | os/rlfs3.c:144-164 | Marking sets or clears one bit and leaves the other fifteen alone |
| `Bitmap.FullIff` | os/rlfs3.c:115-142 | The test against 0xffff is true exactly if no bit is clear |
| `Layout.TakeOwned` | os/rlfs3.c:144-172 | Taking any free block keeps ownership, and the block was no reserved block, inode or data block |
| `Layout.LinkOwned` | os/rlfs3.c:312-376 | Linking a taken block behind the last index keeps ownership and the prefix form |
| `Layout.ResetOwned` | os/rlfs3.c:378-393 | Giving all blocks of a file back keeps ownership |
| `Rlfs3.FileSystem.FindFreeSector` | os/rlfs3.c:115-142 | While a block is free, the lowest free block is returned, and nothing changes |
| `Rlfs3.FileSystem.MarkSector` | os/rlfs3.c:144-164 | Exactly the bit of that block changes on the device |
| `Rlfs3.FileSystem.AllocBlock` | os/rlfs3.c:166-174 | A block that was free and had no owner is taken; one free block less; ownership kept |
| `Rlfs3.FileSystem.Write` | os/rlfs3.c:312-376 | Within the file's limits a write replaces exactly its range, sets the size to the maximum, leaves all other files and holds alone, takes exactly the blocks needed and keeps ownership; with an offset beyond the size nothing is written and the inode stays held once more |
| `Rlfs3.ReadBack` | os/rlfs3.c:262-376 | After a write the range reads back as written, the words before and after it as before, and the size is the maximum |
| `Rlfs3.OthersUntouched` | os/rlfs3.c:312-376 | A write to one file leaves contents, size and flags of every other file as they were |
| `Rlfs3.CutIff` | os/rlfs3.c:281-283 | The test cuts a range at the end of the file if and only if offset + size stays below 2^16 or is still above the size when it has wrapped |
| `Rlfs3.FileSystem.Read` | os/rlfs3.c:262-310 | Under exactly that condition a read returns exactly the slice of the file's contents and changes nothing; with an offset beyond the size it returns nothing and leaves the inode held once more |
| `Rlfs3.FileSystem.Reset` | os/rlfs3.c:378-393 | The file is empty, exactly its blocks are free again, all other inodes and data blocks are unchanged, ownership kept |
| `Rlfs3.FileSystem.FindDir` | os/rlfs3.c:234-252 | The name is found exactly if an entry of the directory has it, and the result is the inode of such an entry |
| `Rlfs3.FileSystem.Create` | os/rlfs3.c:196-232 | Not a directory, name exists or created; then a new inode owned by nobody, an empty file, and one entry at the end of the directory; other files untouched and ownership kept |
| `Rlfs3.FileSystem.Mkfs` | os/rlfs3.c:51-95 | Whatever the device held, the new filesystem has ownership with the root directory as its only inode, holding its two entries, and the title in block 0; every block nobody held is on the device itself, so that if nobody holds any, all this is true of what is read from the device alone, as after a restart |
| `Switch.Swtch.CaseLabel` | lcc/src/stmt.c:366-392 | The case is inserted at its place in both arrays, which grow when full; a duplicate is reported exactly if the value was there |
| `Switch.InsertedAscending` | lcc/src/stmt.c:366-392 | Inserting a new value keeps the values ascending |
| `Switch.SwGen` | lcc/src/stmt.c:394-407 | The buckets partition the cases in order, every bucket is dense, and no two neighbours together are |
| `Switch.EmitTable` | lcc/src/dag.c:537-548 | The table has the label of each case at its place and the default in every gap |
| `Switch.DenseTable` | lcc/src/stmt.c:394-407 | A bucket counts as dense if and only if its table is at most twice as long as its cases |
| `Switch.Emitter.SwCode` | lcc/src/stmt.c:408-476 | The recursive emission appends exactly the specified code with fresh labels |
| `Switch.Emitter.Generate` | lcc/src/stmt.c:394-476 | The whole switch is emitted as the search over dense buckets |
| `Switch.SwCodeCorrect` | lcc/src/stmt.c:408-484 | For every selector, bucket range and depth of the search the code ends at the label of the selector's case, or at the default, without falling from one part into another, and runs off a table exactly where `Strays` says so |
| `Switch.SwitchCorrect` | lcc/src/stmt.c:366-484 | For all recorded cases and all numbers compared with them: the code reaches the right label if and only if the number does not stray; for signed comparison in range of the type it never strays |
| `Switch.UnsignedStrays` | lcc/src/stmt.c:447-478 | Counterexample: four dense cases from 0 on and the unsigned selector 0xffff jump outside the table |
| `Cases.RecordedIff` | lcc/src/stmt.c:126-132 | A case of an unsigned switch is recorded as a number with the same machine words if and only if it is below 0x80 or from 0xff80 on (for two-word types, below 0x8000 or in the last 0x8000 values); signed cases always are |
| `Cases.Collect` | lcc/src/stmt.c:121-133 | The loop over the cases leaves exactly the recorded cases with their labels, in ascending order, and reports a duplicate exactly if two are recorded alike |
| `Cases.WrittenCorrect` | lcc/src/stmt.c:119-138 | For every switch as written and every selector: the code reaches the label of the case written with the selector's value, or the default, if and only if the selector does not stray and either its value is written and narrow, or it is not written and no case is recorded as the number it is compared as |
| `Cases.NarrowCases` | lcc/src/stmt.c:119-138 | A switch is right for all selectors if and only if all its cases are narrow and no selector strays |
| `Cases.Case200` | lcc/src/stmt.c:129-130 | Counterexample: with `case 200` in an unsigned switch selector 200 goes to the default and 0xffc8 to the case |
| `Heap.PayloadsDisjoint` | os/malloc.c:35-71 | No word belongs to two blocks |
| `Heap.TotalConserved` | os/malloc.c:16-105 | In every well-formed heap the sizes add up to the heap's size |
| `Heap.AllFreeIsOne` | os/malloc.c:73-105 | When all blocks are free there is one block |
| `Heap.FreedTiles` | os/malloc.c:73-105 | Freeing any live block keeps the tiling and the absence of free neighbours |
| `Heap.TakenFreed` | os/malloc.c:35-105 | Freeing what has just been allocated gives the same heap back |
| `Heap.SplitTest` | os/malloc.c:42 | The 16-bit size test is right for a block it accepts if and only if the request is below 65528 words |
| `Heap.HugeSplitBreaks` | os/malloc.c:42-58 | For every request from 65528 words on that the first test accepts, no reading of the memory as a well-formed heap has a block where one has been handed out |
| `Heap.Allocator.Init` | os/malloc.c:16-24 | One free block that fills the heap |
| `Heap.Allocator.Malloc` | os/malloc.c:35-71 | For requests below 65528 words the first free block with room for them and a header is split or taken, the headers in memory describe the new tiling and live payloads are untouched; for all requests the answer is null exactly if the 16-bit tests accept no free block, and it is null or a block with room in a well-formed heap if and only if the request is below 65528 words or no free block is accepted |
| `Heap.Allocator.Free` | os/malloc.c:73-105 | The block becomes free and is merged with free neighbours in the headers; live payloads are untouched |
| `Kernel.NextIsNearest` | os/sched.c:96-112 | The slot chosen is runnable and no runnable slot lies between |
| `Kernel.ComesCloser` | os/sched.c:96-112 | A runnable slot that is passed over is strictly closer at the next switch |
| `Kernel.BoundedWaiting` | os/sched.c:96-138 | A slot that is runnable at MAXPROC successive interrupts is dispatched at one of them, whatever happens to other processes between |
| `Kernel.Kernel.TimerInterrupt` | os/sched.c:96-138 | The search ends, dispatches the next runnable slot, and that process goes on with exactly the registers saved when it last left |
| `Kernel.Kernel.SchedAddProc` | os/sched.c:41-86 | A fresh pid goes to a free slot, and to none exactly if the table is full |
| `Kernel.QueueHasRoom` | os/kernel_worker.c:247-261 | In every reachable state the queue has an empty slot, so no request is dropped |
| `Kernel.AskKeepsPairs` | os/sys.c:89-138 | A request pairs one new waiting process with one new task |
| `Kernel.DoneKeepsPairs` | os/kernel_worker.c:52-99 | Serving a request removes exactly one waiting process with its task |
| `Kernel.OnlyZombie` | os/kernel_worker.c:175-211 | With unique pids, looking at the first slot with a pid finds a zombie of that pid if there is one |
| `Kernel.Kernel.SystemInterrupt` | os/sys.c:89-138 | The registers are saved, the caller waits for the worker, and its request is in a queue slot that was empty |
| `Kernel.Kernel.AddKernelTask` | os/kernel_worker.c:247-261 | The first empty slot takes the task |
| `Kernel.Kernel.DoKernelTaskFork` | os/kernel_worker.c:52-99 | The caller runs again and one free slot holds a copy under a new pid, or the table was full; the task is gone |
| `Kernel.Kernel.Interrupts` | os/kernel_worker.c:69-73 | Whatever timer interrupts and system calls come in while the worker copies banks, a caller that waits and its request stay as they are, and everything a state must satisfy still holds |
| `Kernel.Kernel.ForkAcross` | os/kernel_worker.c:52-99 | Fork with any interrupts while the banks are copied: the request is served as if there had been none, or is still there with its caller when another process has got the processor |
| `Kernel.Kernel.DoKernelTaskExecve` | os/kernel_worker.c:124-173 | The caller runs again, at the new program's entry if it was loaded, else as before |
| `Kernel.FinishingStarts` | os/kernel_worker.c:165-168 | When execve has set its caller running before it takes the request out, that request is the only one without a waiting caller |
| `Kernel.RoomWhileFinishing` | os/kernel_worker.c:165-168 | A process that runs then, the caller itself too, still finds room for a request of its own |
| `Kernel.AskWhileFinishing` | os/kernel_worker.c:165-168 | and such a request leaves everything as it must be once the old one is taken out |
| `Kernel.SwitchWhileFinishing` | os/kernel_worker.c:165-168 | and so does a switch to another process |
| `Kernel.Kernel.DoKernelTaskExit` | os/kernel_worker.c:213-226 | The caller becomes a zombie with its code |
| `Kernel.Kernel.DoKernelTaskWaitpid` | os/kernel_worker.c:175-211 | Nothing changes while the process waited for is no zombie; then its slot is freed, the caller runs again and gets the code |
| `Assembler.Assembly.RegLabel` | binutils/assembler.cpp:68-79 | A label gets its number once, and section and block or word position of the place reached |
| `Assembler.Assembly.GetLabelUid` | binutils/assembler.cpp:81-89 | A number is given out exactly on first use |
| `Assembler.Assembly.Align` | binutils/assembler.cpp:107-112 | The text is filled up with zero words to a whole block, data stays |
| `Assembler.Assembly.Assemble` | binutils/assembler.cpp:259-386 | The line loop yields exactly the state of the specification, with both sections aligned at the end |
| `Contents.FinalHolds` | binutils/assembler.cpp:259-386 | Every section of the object holds word by word what the program writes into it, statement by statement: numbers as they are, names as marked words, zeros up to whole blocks before labels in the text and at its end |
| `Contents.StatementLies` | binutils/assembler.cpp:323-371 | The words of a statement lie in the section selected, behind what was written before, the operation before its operand |
| `Contents.RefIsMarked` | binutils/assembler.cpp:365-369 | A word written as a name is a marked word of that name |
| `Contents.LabelLies` | binutils/assembler.cpp:279-282 | A label stands for the next word written behind it in its section |
| `Assembler.ProgramKeeps` | binutils/assembler.cpp:68-112 | After every program: no two labels share a number, every defined label has exactly the place of its last definition, and the marked words are exactly those where the program writes a name, holding that name's number |
| `Assembler.FinalKeeps` | binutils/assembler.cpp:377-380 | The same of the finished object, whose text is whole blocks |
| `Assembler.Assembly.ConvertLabelsTo8` | binutils/assembler.cpp:126-170 | The bytes written are the records of the labels, without unused imports; a label without place is written as import |
| `Assembler.Convert8ToLabels` | binutils/linker.cpp:62-126 | On every table of records the byte loop reads exactly those records; it gives up exactly on a bad shift |
| `Assembler.RoundTrip` | binutils/assembler.cpp:126-170 | Reading the written table back gives exactly the labels that are written, with number and place modulo 2^16 |
| `Assembler.RecordLayout` | binutils/assembler.cpp:126-170 | Number and place are written with the high byte first, behind the zero that ends the name; then section and flags |
| `Assembler.ScanShow` | binutils/linker.cpp:85-113 | Every list of signed decimal numbers evaluates to its sum |
| `Assembler.ScanAccepts` | binutils/linker.cpp:85-113 | Evaluation gives up if and only if a character is neither digit nor sign |
| `Assembler.ShiftOfShown` | binutils/linker.cpp:82-120 | A name with a shift written behind it has that shift |
| `Assembler.SlotFindsLabel` | binutils/linker.cpp:381-389 | For every program with at most 2^16 labels, the number in a marked word finds in the loaded table the label whose name the program wrote there, and no other, with the place of its definition |
| `Toolchain.NameReachesImage` | binutils/linker.cpp:393-427 | For every set of programs that are assembled, loaded and linked: where a program writes a name the image holds the place, after layout, of that name in the same program if it defines it, and else of the name without its shift in the first program that defines it, plus the shift, modulo 2^16 |
| `Toolchain.NumberReachesImage` | binutils/linker.cpp:391-419 | and where it writes a number, an opcode or an operand, the image holds its low word |
| `Toolchain.BlocksAgree` | binutils/linker.cpp:217-226 | The block size of assembler and linker is the one with which the simulator finds a jump's target |
| `Toolchain.LinksIff` | binutils/linker.cpp:393-427 | The link succeeds if and only if every name some program writes is defined by that program or, without its shift, by some program |
| `Toolchain.DeclaresIff` | binutils/assembler.cpp:95-97 | A label counts as imported because of a declaration exactly if the program has an import line for it |
| `Linker.Linker.WhoProvides` | binutils/linker.cpp:192-201 | The first object that exports the name |
| `Linker.Linker.Strip` | binutils/linker.cpp:145-190 | Exactly the objects reachable from the provider of __progbeg along import-to-first-exporter edges remain, each once and in the original order; the growing work list ends |
| `Linker.StripKeepsKnown` | binutils/linker.cpp:145-284 | What links without stripping links with it if and only if every import that a marked word of a reachable object uses is defined, under its name without shift, by some reachable object |
| `Linker.StripDropsShifted` | binutils/linker.cpp:145-259 | Counterexample: an object needed only for `x+1` is stripped and the link, which works without stripping, fails |
| `Linker.TextsDisjoint` | binutils/linker.cpp:204-215 | Text sections lie in order without overlap |
| `Linker.DatasDisjoint` | binutils/linker.cpp:204-215 | Data sections lie in order without overlap |
| `Linker.TextPositionExact` | binutils/linker.cpp:217-226 | A text label's block number stands for its word if and only if base and section offset together are whole blocks |
| `Linker.Linker.ComputeOffsets` | binutils/linker.cpp:204-229 | Every section gets the total of the sizes before it, every defined label moves with its section and base, imports stay |
| `Linker.DataAddress` | binutils/linker.cpp:204-226 | A data label is at its position behind both bases and the data of the objects before its own, and behind all texts unless text and data have a segment each |
| `Linker.TwoSegData` | binutils/linker.cpp:210 | With two segments the texts have no part in data addresses |
| `Linker.TextAddress` | binutils/linker.cpp:217-226 | Eight times the address of a text label is the base plus the texts of the objects before its own plus the place of the label |
| `Linker.DataWordAt` | binutils/linker.cpp:456-469 | Less the bases, the address of a data label is where its word is in data memory, which begins behind the text of the image with two segments, else with it |
| `Linker.Linker.FindGlobalLabel` | binutils/linker.cpp:231-265 | The first object with a definition of the name cut at its shift, if any |
| `Linker.Linker.ResolveNames` | binutils/linker.cpp:267-284 | Every import with a definition takes its position and section; resolving in place gives the same as resolving from the tables before |
| `Linker.ShiftedLocalIff` | binutils/linker.cpp:231-265 | In the image, the word for a shifted use of a label that its own object defines holds the own address of that object plus the shift if and only if no earlier object defines the name, exported or not, or the first that does has it at the same address modulo 2^16 |
| `Linker.ExportedIff` | binutils/linker.cpp:192-265 | In the image, the word for any import holds the address in the object that provides it, plus the shift, if and only if no object before that one defines the name, or the first that does has it at the same address modulo 2^16 |
| `Linker.DataPlacesDiffer` | binutils/linker.cpp:203-229 | The last case cannot happen for data labels inside their sections, whatever the bases and the mode, when the data sections have at most 2^16 words in all |
| `Linker.TextPlacesDiffer` | binutils/linker.cpp:203-229 | Nor for text labels inside texts of whole blocks, of at most 2^16 blocks in all |
| `Linker.ShiftedLocalGoesElsewhere` | binutils/linker.cpp:231-284 | Counterexample: two objects with an unexported x each link without error, and `x+1` in the second becomes the x of the first plus 1 |
| `Linker.Linker.Link` | binutils/linker.cpp:391-419 | The link succeeds if and only if every marked word's number has a resolved label in its object; then marked words hold position plus shift and all others are unchanged |
| `Linker.ImageHoldsText` | binutils/linker.cpp:456-469 | Each text word is in the image where layout has put it |
| `Linker.ImageHoldsData` | binutils/linker.cpp:456-469 | Each data word is behind all texts where layout has put it |
| `Linker.AddressIsPlace` | binutils/linker.cpp:204-229 | Without bases and in one segment an address is the place in the image, in blocks for text |
| `Linker.Linker.Run` | binutils/linker.cpp:548-560 | Strip, layout, resolution, linking and writing together: success if and only if every marked word is known; then every marked word of the image is its label's final address plus shift, every other word is the object file's, and sections fill the image |
| `Simp.AddiExact` | lcc/src/simp.c:55-68 | `addi` accepts a sum of two values if and only if it is in range |
| `Simp.SubiExact` | lcc/src/simp.c:180-182 | `subi` accepts a difference if and only if it is in range, or it is 0 - min |
| `Simp.MuliExact` | lcc/src/simp.c:149-163 | `muli` accepts a product if and only if it is in range |
| `Simp.DiviExact` | lcc/src/simp.c:123-133 | `divi` accepts if and only if the quotient is defined and in range |
| `Simp.Ispow2` | lcc/src/simp.c:605-615 | The shifting loop returns n exactly if u is the n-th power of two, n > 0, else 0 |
| `Simp.LowestBitTest` | lcc/src/simp.c:609 | `(u&(u-1)) == 0` holds for u > 1 if and only if u is a power of two |
| `Simp.FoldRing` | lcc/src/simp.c:6-21 | Folding +, -, *, &, |, ^ on host constants of any value gives the machine's words |
| `Simp.MaskIsMod` | lcc/src/simp.c:502-504 | A remainder by a power of two is a mask |
| `Simp.MulKeeps` | lcc/src/simp.c:513-530 | Multiplication by shift, by distribution over sums and differences and by folding keeps the value, through all nested simplifications |
| `Simp.SimplifyKeepsValue` | lcc/src/simp.c:210-604 | For all operand trees, leaf values and operators of the subset: the simplified tree has the operation's type and machine value |
| `Folding.QuotTruncates` | lcc/src/simp.c:420 | Division is towards zero for divisors of either sign: the quotient times the divisor is below the dividend in size by less than one divisor, its sign is that of equal or different signs, and the remainder has the sign of the dividend |
| `Folding.HostMeans` | lcc/src/simp.c:6-21 | For every operator and pair of constants the folded number is what the operator means, said without the functions that folder and machine share |
| `Folding.MachineMeans` | lcc/src/simp.c:210-604 | and so are the words the machine computes for operands of their types |
| `Folding.SimplifiedMeans` | lcc/src/simp.c:210-604 | Whatever simplifying makes of an operation on two constants, it stands for the words of what the operator means for them |
| `Folding.DivisionFolds` | lcc/src/simp.c:420 | Signed constants are divided when the code is compiled, except by 0 and min by -1, and the result is the truncated quotient or the remainder |
| `Folding.UnsignedDivisionFolds` | lcc/src/simp.c:426-440 | Unsigned ones too, but for large powers of two, which are left as shifts |
| `Folding.FoldsExactly` | lcc/src/simp.c:210-604 | Two constants of their types are folded if and only if the exact result is in range, but for 0 - min, large shifts and unsigned comparisons with 0 |
| `Folding.NeutralGoes` | lcc/src/simp.c:210-604 | An operation that leaves its operand as it is goes |
| `Simp.SimplifyKeepsProper` | lcc/src/simp.c:210-604 | Simplifying trees whose constants are values of their types gives such a tree, for every operator, if and only if it is neither 0 - min nor a product with a signed constant among whose folded terms 0 - min comes up |
| `Simp.ProductProper` | lcc/src/simp.c:513-530 | Whether a distributed product folds to a constant, to which one, and whether all its constants are values of their type is what the term by term rule says beforehand |
| `Simp.FoldedProduct` | lcc/src/simp.c:513-530 | In trees that simplifying has built, whose sums of constants have been folded where they can be, 0 - min never comes up among the terms of a product |
| `Simp.ExtendExact` | lcc/src/c.h:36 | The sign extension used on constants is exact if and only if the value fits in half its type |
| `Simp.BcomKeeps` | lcc/src/simp.c:379-390 | Complement folding keeps the value if and only if a signed constant fits in half its type |
| `Simp.BuildKeepsValue` | lcc/src/simp.c:210-604 | A whole tree built by simplifying every operation has the value of the tree as written, if in no part min is taken from 0 and no complement of a constant too wide for half its type |
| `Simp.CleanIff` | lcc/src/simp.c:210-604 | That condition holds if and only if all parts build to trees whose constants are values of their types, and no complement is taken of a constant too wide |
| `Simp.UncleanChangesValue` | lcc/src/simp.c:180-182 | Counterexample: (0 - min) / 2 is folded to 16384, where the machine computes -16384 |

## Left out

- Lburg: negative rule costs, the special recalculation rule, and the C text that is printed.
- Sim: fetching and decoding of code words, MMU, interrupts, user mode, devices, the scratch registers; operands arrive decoded and sign-extended.
- Trans2: splitting of the input text into lines and words; lines arrive as values.
- Compiled: how the compiler makes the list of roots printed from the one of `Listnodes` (temporaries and registers); 32-bit tests, which call library code; where an argument goes is a matter of its place in the list, not of the path taken to it.
- Xbytecode: multiplication, division, signed shifts by variables and 32-bit comparisons, which call library code by name; floats, structures, sign-extending widening (the translator pushes zero high words).
- Peephole.PassesKeepMeaning: claims nothing about runs that are not tame, and bounds runs by the number of jumps taken; calls are answered by given states to return to, the same up to dead words on both sides, and the code of callees is not run.
- Calls.CallReturns: speaks of balanced runs given as trees of calls whose bodies leave their saved words alone; self-modifying frames are not covered.
- Listnodes.Lister.ListNodes: without conditional expressions, bit fields, structure copies, calls that return structures, and tree-to-node reuse other than for assigned values and postfix increments; a postfix increment of a volatile object, whose single load is the node kept with the tree, is not modelled.
- Listnodes.Lister.Walk: the late run keeps a forced load where it is listed, as the source does for one that is used twice; `prune`, which reads variables again instead of temporaries that hold them, is not modelled. `Trees.Steady` is sufficient: while an operand waits it forbids every label, also of an `&&` whose jump would do no harm.
- Trees: the meaning of a tree evaluates operands from left to right, which C leaves open.
- Switch: the warnings for huge tables, and the 16-bit wrap of the difference that indexes a table.
- Simp: pointers, floats, bit fields, logical operators, signed right shifts, conversions between types other than the extension they use; a useless operand whose value is dropped is kept as a tree without effects.
- Assembler: reading of lines and opcode names, the headers of the object file; the machine's `int` as unbounded integer.
- Assembler.Convert8ToLabels: for tables that are made of whole records; the source reads past the end of others.
- Toolchain: programs whose label table or sections do not fit the fields of the object file.
- Linker: headers, sizes and byte order of the image file, loading of object files, marks beyond a section's end.
- Linker.Linker.Strip: when nothing provides `__progbeg`, since the source then indexes with -1.
- Blk: the driver interface of devices (reads and writes are those of an array of blocks), the wrap of the 16-bit hold count, dumping; a holder's change and the setting of the modified flag are one step.
- Blk.Cache.Bread: requires what `Blk.ReturnsIff` shows to be exactly the condition to return.
- Rlfs3: open files, paths, device files and the calls above `fs_create`, `fs_read` and `fs_write`; a full disk; files from 253 * 256 words on; what a read returns whose range is not cut (`Rlfs3.CutIff` says which those are); names without terminator in 31 words.
- Heap.Allocator.Malloc: for accepted requests from 65528 words on the contract says only that the answer is not adequate; what is in memory then is said by `Heap.HugeSplitBreaks`.
- Kernel: memory banks and copying between them, writing of results into user memory, the wrap of the 16-bit pid counter. Of execve, the interrupts at its end are covered step by step on the process table and the queue, those while it loads are not; a waitpid that finds a zombie runs as one step, though the source looks for it before it turns interrupts off.
- Kernel.Kernel.DoKernelTaskFork: with a full table the source goes on with a pointer that was never set; the model makes no child.
- Serial port, disk images, terminal, shell, older duplicates of the filesystem and the translator, and the compiler's front end: input, output and text handling.
