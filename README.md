# A Dafny model of the PREVAIL eBPF verifier core

PREVAIL checks eBPF programs by abstract interpretation. This project models
four parts of it and proves properties of each:

- **CFG construction** (`src/asm_cfg.cpp`). `instruction_seq_to_cfg` builds a
  flat control-flow graph from a labelled instruction sequence. It then
  inlines every local-call macro (`add_cfg_nodes`). Each macro is cloned into
  a new stack frame, and calls nested inside a clone are inlined in turn, up
  to `MAX_CALL_STACK_FRAMES` frames. `to_nondet` turns every two-way branch
  into two jump blocks, each holding an `Assume` of the condition or of its
  negation. `instype`, `stats_headers` and `collect_stats` compute the
  program statistics.
- **The forward fixpoint iterator** (`src/crab/fwd_analyzer.cpp`). It follows
  the weak topological order (WTO) of the CFG, keeping an abstract value
  before (`pre`) and after (`post`) every block. A cycle is iterated upward,
  with join and then widening, until the head's incoming value is covered.
  It is then iterated downward with meet and narrowing. With termination
  checking on, every top-level cycle head first gets a loop counter.
- **The value-partition domain** (`src/crab/ebpf_value_partition_domain.cpp`
  and `.hpp`). An abstract value is a list of base-domain elements, each
  told apart by the interval of its `packet_size` variable.
  - `join` keeps the non-bottom partitions of both sides, sorts them by that
    interval, and merges neighbours whose intervals are equal.
  - When no partition has a proper packet size, `join` merges everything
    into one partition.
  - A statement is forwarded to every partition, and the partitions that
    became bottom are dropped.
  - The binary operators work pairwise when both sides have the same
    partitions; otherwise they merge each side first.
- **The variable factory** (`src/crab/var_factory.cpp`). A variable is an
  index into a table of names. `make` interns a name. The builders compose
  the names of registers, stack-frame registers, stack cells, kind variables
  and loop counters, and two filters list the type variables and the loop
  counters.

## Structure of the model

- **CFG.** The graph is a value, `CfgGraph.Cfg`: a map from label to block,
  where each block holds its instructions and its predecessor and successor
  sets. The source's builders work on one graph step by step. They are
  methods that reassign local graphs in loops, and each is specified by
  ghost predicates that describe the result completely:
  - `CfgBuilder.IsFlatCfg` for pass 1;
  - `MacroInlining.CloneDone` and `NestedInlining.Inlined` for the inliner;
  - `Nondet.NondetState` for `to_nondet`;
  - `Stats.StatsOf` for the statistics.
- **Fixpoint iterator.** `FwdAnalyzer.FixpointIterator` is a class whose
  fields are the tables and the skip flag. Its coherence invariant says two
  things. A visited label's post is its block applied to its pre. A label
  not yet visited is still bottom.
- **Abstract domains.** The base domain is a record of operations,
  `Lattices.Lattice` and `PartitionDomain.BaseDomain`. Lemmas state which
  lattice laws each result depends on.
- **Partition domain.** The specification functions are in module
  `PartitionDomain`. The loops that compute them, and the class holding the
  partition list and the partition key, are in module `PartitionMethods`.
- **Variable table.** `VariableFactory.VariableRegistry` is a class whose
  field is the name table.

Two behaviours of the code are modelled exactly as written:

- **Widening delay.** With a widening delay of 2, the test
  `iteration < _widening_delay` joins only on the first ascending iteration.
  Every later iteration widens, and only the second passes the "first
  widening" flag (`FwdAnalyzer.WideningSchedule`).
- **The `jumps` statistic.** `collect_stats` counts `jumps` with the same
  test as `joins`, so both count the blocks with more than one distinct
  predecessor (`Stats.CollectStats`).

## Model

| member | source | states |
|---|---|---|
| Instructions.GetJump | src/asm_cfg.cpp:21-26 | a target is returned exactly for a jump instruction, and it is that jump's target |
| Instructions.HasFall | src/asm_cfg.cpp:28-40 | control may continue with the next instruction exactly when the instruction is neither an exit nor an unconditional jump |
| Instructions.ReverseOpInvolution | src/asm_cfg.cpp:192-214 | negating a comparison operator twice gives it back, and no operator is its own negation |
| Instructions.ReverseOpKeepsSignedness | src/asm_cfg.cpp:192-214 | a signed comparison negates to a signed one and an unsigned one to an unsigned one |
| Instructions.Reverse | src/asm_cfg.cpp:217-219 | the negated condition has the negated operator and the same operands and width |
| Instructions.ReverseInvolution | src/asm_cfg.cpp:217-219 | negating a condition twice gives it back, and no condition is its own negation |
| Instructions.CategoryOf | src/asm_cfg.cpp:279-316 | each category is characterised exactly: calls and only calls fall in the three call categories; `call_1` is a map lookup; `call_nomem` is a call that is not a map lookup, has no pair arguments and only ANYTHING singles, and `call_mem` is any other call; `callx`, `load` (a memory access that loads), `store` (one that stores), `load_store` (an atomic), `packet_access` and `assume` each hold exactly their own instruction kind; assignments are the four moves and map-fd loads; arithmetic is any other binary operation or a unary one; `other` is exactly exit, jump, local call, loop-counter increment and unmodelled instructions |
| Instructions.CategoryNameInjective | src/asm_cfg.cpp:279-316 | distinct categories have distinct names, so counting by name is counting by category |
| Stats.NameInjective | src/asm_cfg.cpp:318-324 | distinct statistics keys have distinct column names |
| CfgBuilder.LinkIncoming | src/asm_cfg.cpp:148-159 | the instruction's block exists and gains the instruction at its end while no other block changes; the new edges are entry-to-block for the first defined instruction and the pending fallthrough into the block |
| CfgBuilder.LinkOutgoing | src/asm_cfg.cpp:163-169 | a jump inserts its target and adds the edge to it; an exit adds the edge to the exit label; nothing else changes |
| CfgBuilder.AddFlatInstruction | src/asm_cfg.cpp:148-169 | one defined instruction extends the labels, instructions and edges by exactly its own contribution; `first` is cleared and the new fallthrough source is the instruction's label when it can fall through |
| CfgBuilder.FlatEdgeStepDefined | src/asm_cfg.cpp:148-169 | the edges of the first k+1 instructions are those of the first k plus the entry, fallthrough, jump and exit edges of instruction k |
| CfgBuilder.LastOfAll | src/asm_cfg.cpp:156-162 | after the loop a fallthrough is pending exactly when the last defined instruction can fall through, and it comes from that instruction's label |
| CfgBuilder.InstsBeforeUnlabelled | src/asm_cfg.cpp:148-155 | a label that no instruction so far carries or jumps to holds no instructions |
| CfgBuilder.FlatStep | src/asm_cfg.cpp:142-170 | one loop iteration moves the complete description of the graph and of `first` and `falling_from` from k to k+1 instructions |
| CfgBuilder.FlatComplete | src/asm_cfg.cpp:171-177 | the pending fallthrough exists exactly when the program falls off its end; without one the graph is the flat graph, and with one the flat graph is the graph plus the edge from that label to the exit |
| CfgBuilder.BuildFlatCfg | src/asm_cfg.cpp:136-177 | pass 1 fails, with the fallthrough error, exactly when an exit is required and the last defined instruction falls through; otherwise the result is the flat graph, whose blocks, instructions and edges are described completely |
| AsmCfg.InstructionSeqToCfg | src/asm_cfg.cpp:136-189 | the fallthrough error arises exactly as in pass 1; every result is well formed and holds every label of the flat graph; without local calls the result is exactly the flat graph |
| Labels.CloneIsOneFrameDeeper | src/asm_cfg.cpp:119-120 | a block cloned into the frame a caller opens counts exactly one stack frame more than the caller |
| Labels.PrintedLongerThanPrefix | src/asm_cfg.cpp:53 | a label's printed form is longer than its own prefix, so a caller never lies in the frame it opens |
| MacroInlining.CloneInstruction | src/asm_cfg.cpp:75-82 | a cloned exit and a cloned helper call take the frame's prefix, and every other instruction is copied unchanged |
| MacroInlining.CloneKeepsShape | src/asm_cfg.cpp:75-82 | cloning keeps the jump target, the fallthrough and the statistics category, and cloning into the same frame again changes nothing |
| MacroInlining.RewriteCallLocals | src/asm_cfg.cpp:52-58 | every CallLocal of the caller records the new frame prefix, and every other instruction is kept |
| MacroInlining.CloneBlock | src/asm_cfg.cpp:73-82 | the clone label is inserted or kept, and the macro block's cloned instructions are appended to it; no other block and no edge changes |
| MacroInlining.LinkClonePredecessors | src/asm_cfg.cpp:90-97 | exactly the edges from the already existing clones of the macro block's predecessors to the clone are added |
| MacroInlining.WalkSuccessors | src/asm_cfg.cpp:99-111 | the clone links to the return block exactly when the macro block reaches the exit; the queue is extended only by successors that are not the exit and not yet seen, and by every such successor other than the block itself; the block joins the seen set exactly when something was queued |
| MacroInlining.CloneAndLink | src/asm_cfg.cpp:72-97 | the clone of the macro block holds its earlier contents plus the cloned instructions; the caller enters it on the first step only; the clones of its predecessors are linked to it |
| MacroInlining.CloneStep | src/asm_cfg.cpp:65-111 | one iteration fails exactly on a label of the new frame (illegal recursion) or on a missing block, and otherwise does exactly the clone, link and queue steps |
| MacroInlining.Advance | src/asm_cfg.cpp:64-111 | one step fails exactly when the dequeued label lies in the new frame `to_string(caller)` or is missing; the first failure means a label of the new frame is reachable from the callee entry, and the second that the callee entry itself is not a block; otherwise the step keeps the walk's invariants, among them that every queued and visited label lies on a path of walk edges from the entry, makes progress, and extends the visiting order by the block it took |
| MacroInlining.HeadFacts | src/asm_cfg.cpp:64-70 | the callee entry is dequeued first; a dequeued label of the new frame lies on a walk path, so the walk reaches the new frame; only the callee entry can be missing, and only when it is not a block |
| MacroInlining.ReachStep | src/asm_cfg.cpp:84-111 | one step keeps every queued and visited label on a walk path from the entry, and once the caller has been visited the copy of the callee entry, added by its new edge, waits in the queue |
| MacroInlining.PathVisited | src/asm_cfg.cpp:99-111 | every path of walk edges from the entry stays inside a visiting order that holds the entry, not the caller, and every non-exit original successor of its members |
| MacroInlining.DrainedReachesNoFrame | src/asm_cfg.cpp:60-112 | a walk that drains its queue has visited every label reachable from the entry, and none of them lies in the new frame |
| MacroInlining.MissingEntryReachesNoFrame | src/asm_cfg.cpp:64-70 | a callee entry that is not a block and lies outside the new frame reaches no other label, so a missing entry is not a recursion |
| MacroInlining.PathFromStuckEntry | src/asm_cfg.cpp:64-70 | when the callee entry is not a block of the graph, the only walk path is the entry alone |
| MacroInlining.WalkOutcome | src/asm_cfg.cpp:60-112 | the walk's two errors are told apart by reachability: illegal recursion exactly when the new frame is reachable, success exactly when it is not and the entry is a block |
| MacroInlining.RunWalk | src/asm_cfg.cpp:60-112 | the walk reports illegal recursion exactly when a label of the new frame `to_string(caller)` is reachable from the callee entry along the original edges other than those into the exit, together with the caller's new edge into the copy of the entry; it succeeds exactly when no such label is reachable and the entry is a block, and then ends with an empty queue in the walk's invariant state; its only other error is a missing entry |
| MacroInlining.Finish | src/asm_cfg.cpp:114-116 | once the caller's edge to the return block is removed, the graph is the complete clone of the visited macro blocks |
| MacroInlining.CloneMacro | src/asm_cfg.cpp:43-116 | a missing caller and a caller without successors give their own errors; for any other caller, illegal recursion of the new frame `to_string(caller)` is reported exactly when a label of that frame is reachable from the callee entry along the original edges and the caller's new edge into the copy of the entry; the call succeeds exactly when the caller has a successor, the entry is a block and no such label is reachable, and a success is the complete clone: blocks, instructions, edges and visiting order |
| NestedInlining.RewriteKeepsCalls | src/asm_cfg.cpp:54-58 | rewriting the caller's CallLocal instructions keeps every local call at its position |
| NestedInlining.WalkInlined | src/asm_cfg.cpp:43-116 | the finished walk is an inlining step: only the new frame and the caller change, and the caller enters the clone of the entry instead of the return block |
| NestedInlining.NestedConfined | src/asm_cfg.cpp:118-131 | a call inlined from a block of a frame changes the graph only within that frame |
| NestedInlining.ConfinedTrans | src/asm_cfg.cpp:122-131 | changes confined to a frame compose |
| NestedInlining.AddCfgNodes | src/asm_cfg.cpp:43-133 | a missing caller and a caller without successors give their own errors, and the fallthrough error never arises; for any other caller, illegal recursion of the new frame `to_string(caller)` is reported exactly when a label of that frame is reachable from the callee entry (the nested calls report recursion only of longer frames); the returned seen set, return block and walked graph form the complete clone of a visiting order exactly when the caller has a successor, the entry is a block and no such label is reachable, which every success and every depth error implies; a success is an inlining step of the caller; at full depth a success is the walked graph, whose cloned blocks hold no local call, and the depth error means some cloned block holds one |
| NestedInlining.InlineSeen | src/asm_cfg.cpp:122-132 | the nested calls of all visited blocks change the graph only within the frame `to_string(caller)`, and any illegal-recursion error they raise names a frame longer than `to_string(caller)`; at full depth a success leaves the graph unchanged and means no clone holds a local call, and any error is the depth error and means some clone holds one |
| NestedInlining.InlineBlock | src/asm_cfg.cpp:123-131 | inlining the calls of one cloned block stays within the frame, and any illegal recursion it reports names a longer frame; at full depth it succeeds, unchanged, exactly when the block holds no local call |
| NestedInlining.CallerOutside | src/asm_cfg.cpp:53 | the caller itself never lies in the frame it opens, so inlining inside that frame leaves the caller alone |
| NestedInlining.NestedCallConfined | src/asm_cfg.cpp:129 | a nested call that succeeded leaves the graph confined to the caller's frame and keeps the calling block's local calls |
| NestedInlining.InlineCall | src/asm_cfg.cpp:129 | one nested call stays within the frame `to_string(caller)`, leaves the local calls of the calling block in place, and reports illegal recursion only of a frame longer than `to_string(caller)` |
| Nondet.NonJumpsDropsOnlyJumps | src/asm_cfg.cpp:237-241 | filtering jumps out keeps a list whole exactly when it holds no jump |
| Nondet.CopyNonJumps | src/asm_cfg.cpp:237-241 | the new block gains its own instructions without the jumps, in order, and nothing else changes |
| Nondet.LinkPreds | src/asm_cfg.cpp:243-247 | the block is entered from every original predecessor, through that predecessor's jump block when it has more than one successor |
| Nondet.JumpBlock | src/asm_cfg.cpp:262-264 | the jump block is inserted and gains exactly one Assume of the condition |
| Nondet.JumpVia | src/asm_cfg.cpp:261-267 | the block leads to the successor through its jump block, which assumes the condition |
| Nondet.LinkStraight | src/asm_cfg.cpp:268-272 | a block without a two-way branch goes straight to each of its successors |
| Nondet.LinkSuccs | src/asm_cfg.cpp:249-272 | a block with two successors that does not end in a conditional jump is an error; a branch leaves through a jump block assuming the condition to its target and one assuming the negation to the other successor |
| Nondet.NondetBlock | src/asm_cfg.cpp:235-273 | one iteration fails only on a malformed branch and otherwise adds exactly that block's instructions, jump blocks and edges |
| Nondet.ToNondet | src/asm_cfg.cpp:232-275 | the conversion fails exactly when some block is a malformed branch; otherwise it visits every block once and the result is the union of what each block contributes |
| Nondet.NondetEdges | src/asm_cfg.cpp:243-272 | in the result each block is entered from its predecessors' sources, a branch leaves through two jump blocks to its two successors, and any other block goes straight to its successors |
| Nondet.NondetInsts | src/asm_cfg.cpp:237-267 | no block of the result holds a jump; new blocks hold only assumptions; when no jump label is already a block and every branch target is a successor, every original block holds exactly its own instructions without the jumps |
| Nondet.ContribOriginal | src/asm_cfg.cpp:237-241 | an original block, after all visits, holds its own non-jump instructions when visited and nothing otherwise |
| Nondet.ContribNoJumps | src/asm_cfg.cpp:237-264 | nothing the conversion adds is a jump |
| Nondet.ContribOnlyAssumes | src/asm_cfg.cpp:261-267 | a block that is not in the input receives only Assume instructions |
| Stats.Unique | src/asm_cfg.cpp:221-226 | unique_copy keeps the first element and the same members, and is no longer than its input |
| Stats.UniqueHasNoAdjacentDuplicates | src/asm_cfg.cpp:221-226 | the result has no two equal neighbours |
| Stats.UniqueKeepsDistinct | src/asm_cfg.cpp:221-226 | a list without equal neighbours is kept whole |
| Stats.UniqueIdempotent | src/asm_cfg.cpp:221-226 | applying unique twice is applying it once |
| Stats.UniquePredecessorCount | src/asm_cfg.cpp:351-356 | the unique predecessors of a block are as many as its distinct predecessors |
| Stats.HeaderNames | src/asm_cfg.cpp:318-324 | there are 17 distinct headers, in the source's order and with its names |
| Stats.HeadersListed | src/asm_cfg.cpp:318-324 | every key except the `callx` and `assume` categories is a header |
| Stats.AnyMapInMapExists | src/asm_cfg.cpp:336-340 | the map-in-map flag is set exactly when some instruction loads map fd -1 |
| Stats.AnyReallocateExists | src/asm_cfg.cpp:341-345 | the reallocate flag is set exactly when some helper call may reallocate the packet |
| Stats.CategoriesExist | src/asm_cfg.cpp:349 | a category gets a key exactly when some instruction is in it |
| Stats.CountInstruction | src/asm_cfg.cpp:336-349 | counting one instruction moves the full statistics of a prefix to those of the prefix extended by it |
| Stats.TallyStep | src/asm_cfg.cpp:336-349 | the four updates of one instruction keep the keys, counters, flags, widths and category counts exact |
| Stats.CountBlock | src/asm_cfg.cpp:335-350 | the statistics after a block are those of the instructions seen so far followed by the block's |
| Stats.JoinsGrow | src/asm_cfg.cpp:351-353 | counting one more block adds a join exactly when it has more than one predecessor |
| Stats.CountOneBlock | src/asm_cfg.cpp:332-356 | one loop iteration counts the block, its instructions and, when it has several predecessors, a join and a jump |
| Stats.CollectStats | src/asm_cfg.cpp:326-359 | every block is visited once; the result counts the blocks, joins (and, as written, jumps by the same test), the instructions per category and width, and the two flags, over all instructions in visiting order |
| FwdAnalyzer.IsMemberLabels | src/crab/fwd_analyzer.cpp:16-43 | the member visitor finds a label exactly when the component mentions it as a vertex or a head |
| FwdAnalyzer.AnyMemberLabels | src/crab/fwd_analyzer.cpp:29-40 | the visitor's early-stopping walk over a cycle's components finds a label exactly when one of them mentions it |
| FwdAnalyzer.Extrapolate | src/crab/fwd_analyzer.cpp:76-85 | with a join and a widening that bound their operands, the extrapolated value is above both the old and the new value |
| FwdAnalyzer.WideningSchedule | src/crab/fwd_analyzer.cpp:76-85 | only iteration 1 joins; every later one widens, with the "first widening" flag on iteration 2 alone |
| FwdAnalyzer.Refine | src/crab/fwd_analyzer.cpp:87-93 | with a meet and a narrowing below their first operand, the refined value is below the old value |
| FwdAnalyzer.JoinOverBounds | src/crab/fwd_analyzer.cpp:108-110 | with a sound join, joining predecessors' posts gives a value above the start and above each post joined |
| FwdAnalyzer.JoinOverPermutation | src/crab/fwd_analyzer.cpp:108-110 | when joins can be swapped, the set's iteration order does not change the joined value |
| FwdAnalyzer.ShallowKeeps | src/crab/fwd_analyzer.cpp:211-216 | the seed of a cycle joins exactly the head's predecessors not nested deeper than the head, in order |
| FwdAnalyzer.CycleHeadsListed | src/crab/fwd_analyzer.cpp:135-140 | a label is collected exactly when it heads a top-level cycle |
| FwdAnalyzer.CountersOfDistinct | src/crab/fwd_analyzer.cpp:141-144 | with distinct heads, each head's block gains exactly one loop-counter increment and no other block gains any |
| FwdAnalyzer.TopLevelCycleHeads | src/crab/fwd_analyzer.cpp:135-140 | the loop collects the heads of the top-level cycles in WTO order |
| FwdAnalyzer.InstrumentCycleHeads | src/crab/fwd_analyzer.cpp:141-144 | each head's block gains one increment per occurrence at its end, no other block changes, and the entry value has each head's counter initialised in turn |
| FwdAnalyzer.BottomTable | src/crab/fwd_analyzer.cpp:116-119 | the table maps every label, and only those, to bottom |
| FwdAnalyzer.FixpointIterator.constructor | src/crab/fwd_analyzer.cpp:115-120 | both tables map every label to bottom, the iterator skips until the entry, and the coherence invariant holds |
| FwdAnalyzer.FixpointIterator.SetPre | src/crab/fwd_analyzer.cpp:68 | only the label's pre changes; setting the entry's pre before the entry is visited keeps coherence |
| FwdAnalyzer.FixpointIterator.TransformToPost | src/crab/fwd_analyzer.cpp:70-74 | the label's post becomes its block applied to the value, the label counts as visited, and nothing else changes |
| FwdAnalyzer.FixpointIterator.JoinAllPrevs | src/crab/fwd_analyzer.cpp:95-112 | the result is the seed joined with the post of every predecessor, each once, in the order the set yields them |
| FwdAnalyzer.FixpointIterator.SeedFromOutside | src/crab/fwd_analyzer.cpp:211-216 | the result is bottom joined with the posts of the head's predecessors that are not nested deeper than the head |
| FwdAnalyzer.FixpointIterator.VisitLabel | src/crab/fwd_analyzer.cpp:174-187 | before the entry is reached a label changes nothing; otherwise its pre is the stored entry value or the join of its predecessors' posts, and its post is its block applied to that pre |
| FwdAnalyzer.FixpointIterator.Visit | src/crab/fwd_analyzer.cpp:147-148 | visiting a component changes only its own labels, keeps coherence, changes nothing while skipping a component that does not hold the entry, and visiting the entry's own vertex keeps the entry's pre |
| FwdAnalyzer.FixpointIterator.VisitCycle | src/crab/fwd_analyzer.cpp:189-259 | a cycle without the entry is skipped while skipping; otherwise skipping ends, only the cycle's labels change, and coherence holds afterwards |
| FwdAnalyzer.FixpointIterator.IterateCycle | src/crab/fwd_analyzer.cpp:207-258 | seeding and both iteration sequences change only the cycle's labels and keep coherence |
| FwdAnalyzer.FixpointIterator.Ascend | src/crab/fwd_analyzer.cpp:219-237 | the loop converges exactly when, in its last round, the seed joined with the predecessors' posts is below the invariant that round started from, and then that join is the head's pre; the first round starts from the seed; a head that occurs once has as post its block applied to that invariant; a loop that does not converge has run all `fuel` rounds |
| FwdAnalyzer.FixpointIterator.Descend | src/crab/fwd_analyzer.cpp:239-258 | the loop stops at the cap exactly when its last invariant is not below the seed joined with the predecessors' posts, and it can stop there only in round 2,000,001; a loop that stops in its first round ends with the given invariant; the last invariant is the head's pre when the head occurs once; coherence holds |
| FwdAnalyzer.FixpointIterator.VisitNested | src/crab/fwd_analyzer.cpp:223-227 | visiting the components of a cycle other than its bare head changes only their labels |
| FwdAnalyzer.FixpointIterator.VisitAll | src/crab/fwd_analyzer.cpp:147-149 | visiting the top-level components keeps coherence, writes only labels of the WTO, and keeps the entry's pre when the entry appears only as a plain top-level label |
| FwdAnalyzer.RunForwardAnalyzer | src/crab/fwd_analyzer.cpp:130-151 | both tables cover every block; with termination checking each top-level head gains its counter increments; every visited label's post is its block applied to its pre; every unvisited label is bottom, except for the entry's stored pre; when the entry is a plain top-level label its pre is the given entry value, after `initialize_loop_counter` for each top-level cycle head in turn when termination is checked |
| Intervals.BoundMax | src/crab/ebpf_value_partition_domain.cpp:236 | the maximum of two bounds is one of them and below neither |
| Intervals.KeyLessTotal | src/crab/ebpf_value_partition_domain.cpp:137-155 | the comparator is total and asymmetric on intervals |
| Intervals.KeyLessTransitive | src/crab/ebpf_value_partition_domain.cpp:137-155 | the comparator is transitive |
| Intervals.KeyLessIrreflexive | src/crab/ebpf_value_partition_domain.cpp:137-155 | no interval sorts before itself |
| Intervals.KeyLeTransitive | src/crab/ebpf_value_partition_domain.cpp:137-155 | "not after" is transitive, so the sorted order is consistent |
| PartitionDomain.AllBottom | src/crab/ebpf_value_partition_domain.cpp:57-60 | is_bottom holds exactly when every partition is bottom |
| PartitionDomain.AllTop | src/crab/ebpf_value_partition_domain.cpp:61-64 | is_top holds exactly when every partition is top |
| PartitionDomain.SamePartitions | src/crab/ebpf_value_partition_domain.cpp:295-307 | same partitions means the same length and the same packet-size interval slot by slot |
| PartitionDomain.MergeAll | src/crab/ebpf_value_partition_domain.cpp:281-293 | merging leaves exactly one partition |
| PartitionDomain.MergeAllResult | src/crab/ebpf_value_partition_domain.cpp:281-293 | the merged partition is bottom for an empty list, the partition itself for a singleton, and otherwise the first joined with each later one; merging twice is merging once |
| PartitionDomain.SamePartitionsEquivalence | src/crab/ebpf_value_partition_domain.cpp:295-307 | has_same_partitions is reflexive and symmetric |
| PartitionDomain.PointwiseLength | src/crab/ebpf_value_partition_domain.cpp:309-324 | matching operands are combined slot by slot into as many partitions; otherwise both sides are merged and combined once |
| PartitionDomain.LeqReflexive | src/crab/ebpf_value_partition_domain.cpp:65-72 | with a reflexive base order, `<=` on partition lists is reflexive |
| PartitionDomain.EqualReflexive | src/crab/ebpf_value_partition_domain.cpp:73-79 | with a reflexive base equality, `==` on partition lists is reflexive |
| PartitionDomain.NonBottomKeepsOrder | src/crab/ebpf_value_partition_domain.cpp:122-134 | the copies keep exactly the non-bottom partitions, each at its own position, in their order |
| PartitionDomain.NonBottomHasNoBottom | src/crab/ebpf_value_partition_domain.cpp:122-134 | no bottom partition is copied |
| PartitionDomain.NonBottomIdentity | src/crab/ebpf_value_partition_domain.hpp:95-104 | a list without bottom partitions passes through unchanged |
| PartitionDomain.TransferDropsBottoms | src/crab/ebpf_value_partition_domain.hpp:86-105 | the statement's result is the broadcast with the bottom partitions dropped, whether or not any became bottom |
| PartitionDomain.TransferResult | src/crab/ebpf_value_partition_domain.hpp:86-105 | no partition of the result is bottom; it is empty exactly when every partition became bottom; it is bottom exactly when empty; when none became bottom it is the broadcast itself |
| PartitionDomain.InsertByKeyPermutes | src/crab/ebpf_value_partition_domain.cpp:137 | inserting one partition adds exactly that partition |
| PartitionDomain.InsertByKeySorted | src/crab/ebpf_value_partition_domain.cpp:137-155 | inserting into a sorted list keeps it sorted |
| PartitionDomain.SortByKeySorts | src/crab/ebpf_value_partition_domain.cpp:136-155 | the sort is a permutation into the comparator's order |
| PartitionDomain.MergeFromHead | src/crab/ebpf_value_partition_domain.cpp:157-168 | with the key kept by the base join, each run keeps the key of its first partition |
| PartitionDomain.MergeFromStrictlySorted | src/crab/ebpf_value_partition_domain.cpp:157-168 | merging a sorted list leaves it strictly sorted, so no two neighbours share a key |
| PartitionDomain.MergeFromKeys | src/crab/ebpf_value_partition_domain.cpp:157-168 | merging loses no key and invents none |
| PartitionDomain.MergeFromNoMerge | src/crab/ebpf_value_partition_domain.cpp:157-168 | where no neighbours share a key, the merge pass changes nothing |
| PartitionDomain.MergeFromShorter | src/crab/ebpf_value_partition_domain.cpp:157-168 | merging never lengthens the list |
| PartitionDomain.JoinPartitioned | src/crab/ebpf_value_partition_domain.cpp:122-175 | when some partition has a proper packet size, the join is no longer than the non-bottom inputs and is their sorted list when no sorted neighbours share a key; with a base join that keeps a shared packet size, its keys strictly increase and are exactly those of the inputs |
| PartitionDomain.JoinUnpartitioned | src/crab/ebpf_value_partition_domain.cpp:105-120 | when no partition has a proper packet size, the join is one partition: bottom joined with every left-hand and then every right-hand partition |
| PartitionMethods.FindPacketSize | src/crab/ebpf_value_partition_domain.cpp:87-103 | the loop finds a partition with a proper packet size exactly when one exists |
| PartitionMethods.JoinEach | src/crab/ebpf_value_partition_domain.cpp:109-114 | the loop joins every partition in order onto the accumulator |
| PartitionMethods.AppendNonBottom | src/crab/ebpf_value_partition_domain.cpp:122-134 | the loop appends the non-bottom partitions in order |
| PartitionMethods.MergeNeighbours | src/crab/ebpf_value_partition_domain.cpp:157-168 | the in-place merge with erasure computes the merge of runs of equal keys |
| PartitionMethods.MergeErases | src/crab/ebpf_value_partition_domain.cpp:160-163 | absorbing and erasing an equal-keyed neighbour leaves the merge's outcome unchanged |
| PartitionMethods.RunClosed | src/crab/ebpf_value_partition_domain.cpp:164-166 | a partition followed by another key, or by nothing, ends its run |
| PartitionMethods.JoinPartitions | src/crab/ebpf_value_partition_domain.cpp:81-175 | the code of join computes the join function |
| PartitionMethods.ValuePartitionDomain.constructor | src/crab/ebpf_value_partition_domain.cpp:34-35 | the domain holds the given partitions and no key |
| PartitionMethods.ValuePartitionDomain.Top | src/crab/ebpf_value_partition_domain.cpp:38-42 | top is one top partition |
| PartitionMethods.ValuePartitionDomain.Bottom | src/crab/ebpf_value_partition_domain.cpp:43-47 | bottom is one bottom partition |
| PartitionMethods.ValuePartitionDomain.SetToTop | src/crab/ebpf_value_partition_domain.cpp:48-51 | the partitions become one top partition and the key is kept |
| PartitionMethods.ValuePartitionDomain.SetToBottom | src/crab/ebpf_value_partition_domain.cpp:52-55 | the partitions become one bottom partition and the key is kept |
| PartitionMethods.ValuePartitionDomain.MergeAllPartitions | src/crab/ebpf_value_partition_domain.cpp:281-293 | the partitions become their merge and the key is kept |
| PartitionMethods.ValuePartitionDomain.Apply | src/crab/ebpf_value_partition_domain.hpp:86-105 | the partitions become the transfer of the statement and the key is kept |
| PartitionMethods.ValuePartitionDomain.SetKey | src/crab/ebpf_value_partition_domain.hpp:75 | only the partition key changes |
| PartitionMethods.ValuePartitionDomain.JoinWith | src/crab/ebpf_value_partition_domain.cpp:177-183 | the object becomes the join of both sides, with no key |
| PartitionMethods.ValuePartitionDomain.MergeOrApply | src/crab/ebpf_value_partition_domain.cpp:309-324 | the callback's results on each pair of operands, in order |
| PartitionMethods.ValuePartitionDomain.IsLeq | src/crab/ebpf_value_partition_domain.cpp:65-72 | `<=` holds exactly when the base order holds on every pair of operands |
| PartitionMethods.ValuePartitionDomain.IsEqual | src/crab/ebpf_value_partition_domain.cpp:73-79 | `==` holds exactly when the base equality holds on every pair of operands |
| PartitionMethods.ValuePartitionDomain.MeetWith | src/crab/ebpf_value_partition_domain.cpp:198-206 | the meet's partitions are the base meets of the operand pairs |
| PartitionMethods.ValuePartitionDomain.WidenWith | src/crab/ebpf_value_partition_domain.cpp:207-216 | the widening's partitions are the base widenings of the operand pairs |
| PartitionMethods.ValuePartitionDomain.NarrowWith | src/crab/ebpf_value_partition_domain.cpp:217-224 | the narrowing's partitions are the base narrowings of the operand pairs |
| PartitionMethods.ValuePartitionDomain.LoopCountUpperBound | src/crab/ebpf_value_partition_domain.cpp:232-239 | the partitions are merged in place, and the bound is the larger of 0 and the merged partition's bound |
| VariableFactory.KindNameInjective | src/crab/var_factory.cpp:143 | distinct kinds have distinct names |
| VariableFactory.ToUint64 | src/crab/var_factory.cpp:162 | the cast gives a 64-bit unsigned value and keeps every offset already in that range |
| VariableFactory.LastIndexOf | src/crab/var_factory.cpp:168 | rfind gives the last position of the character, or -1 when it is absent |
| VariableFactory.EndsWithIsSuffix | src/crab/var_factory.cpp:175-177 | ends_with holds exactly when the string is something followed by the suffix |
| VariableFactory.DefaultNamesLayout | src/crab/var_factory.cpp:22-137 | the default table has 112 names: register r's name of the k-th kind at 10r+k for r0 to r10, then data_size and meta_size |
| VariableFactory.DefaultNamesDistinct | src/crab/var_factory.cpp:22-137 | the default table has no name twice |
| VariableFactory.NatToStringInjective | src/crab/var_factory.cpp:143 | distinct numbers print differently |
| VariableFactory.IntToStringInjective | src/crab/var_factory.cpp:143 | distinct integers print differently, signs included |
| VariableFactory.RegNameInjective | src/crab/var_factory.cpp:143 | register names are equal only for the same kind and register |
| VariableFactory.Intern | src/crab/var_factory.cpp:13-20 | make returns the first position of the name in the table, which grows by at most that name and keeps its old contents |
| VariableFactory.InternGrowsOnlyWhenAbsent | src/crab/var_factory.cpp:13-20 | the table grows exactly when the name is absent, and then the new index is the old size |
| VariableFactory.InternTwice | src/crab/var_factory.cpp:13-20 | a second make of the same name returns the same index and leaves the table alone |
| VariableFactory.InternKeepsDistinct | src/crab/var_factory.cpp:13-20 | interning never puts a name in the table twice |
| VariableFactory.KindVarOfDotted | src/crab/var_factory.cpp:166-169 | kind_var replaces the part after the last dot by the kind's name |
| VariableFactory.KindVarOfRegister | src/crab/var_factory.cpp:166-169 | the kind variable of a register's variable is that register's variable of the kind |
| VariableFactory.KindVarOfStackFrame | src/crab/var_factory.cpp:166-169 | the same holds in a stack frame, keeping the prefix |
| VariableFactory.KindVarOfScalar | src/crab/var_factory.cpp:166-169 | the same holds for a stack cell, whose range has dots of its own |
| VariableFactory.StackNames | src/crab/var_factory.cpp:189 | stack cells are in the stack and registers are not |
| VariableFactory.FiltersRecogniseBuilders | src/crab/var_factory.cpp:179-201 | a register's type variable passes the type filter, a loop counter passes the loop-counter filter, and a type variable does not pass the loop-counter filter |
| VariableFactory.SelectedPositions | src/crab/var_factory.cpp:179-201 | on a table with no duplicates, the filters return exactly the positions of the names they keep, in increasing order |
| VariableFactory.SelectedByIsPositions | src/crab/var_factory.cpp:179-201 | on a table with no duplicates, the index make returns for each kept name is its own position |
| VariableFactory.VariableRegistry.constructor | src/crab/var_factory.cpp:139 | the table starts as the default names |
| VariableFactory.VariableRegistry.Make | src/crab/var_factory.cpp:13-20 | the table and the index become those of interning the name |
| VariableFactory.VariableRegistry.Reg | src/crab/var_factory.cpp:143 | interns `r<i>.<kind>` |
| VariableFactory.VariableRegistry.StackFrameVar | src/crab/var_factory.cpp:157-159 | interns the register name behind the frame prefix and the delimiter |
| VariableFactory.VariableRegistry.CellVar | src/crab/var_factory.cpp:161-163 | interns the cell name of the offset cast to 64 bits |
| VariableFactory.VariableRegistry.KindVar | src/crab/var_factory.cpp:166-169 | interns the kind variable of the given type variable's name |
| VariableFactory.VariableRegistry.MetaOffset | src/crab/var_factory.cpp:171 | interns `meta_offset` |
| VariableFactory.VariableRegistry.PacketSize | src/crab/var_factory.cpp:172 | interns `packet_size` |
| VariableFactory.VariableRegistry.LoopCounter | src/crab/var_factory.cpp:173 | interns `pc[<label>]` |
| VariableFactory.VariableRegistry.Filter | src/crab/var_factory.cpp:179-201 | the table is unchanged and the result is make of every kept name, in table order |

## Left out

- **Graph, label and instruction types.** The graph type (crab/cfg.hpp), the label type (label.hpp) and the instruction syntax (asm_syntax.hpp) are not part of this model. The model defines the graph operations itself: insert-or-get, `>>`, `-=` and append. It also fixes the entry and exit labels, `make_jump` and the printed form of a label. An `ostringstream` of a label is `Labels.LabelToString`.
- **Instructions.** Only the instruction kinds that affect control flow or statistics are told apart. The rest are `OtherInstruction`, and the operands of binary operations are left out.
- **Label order.** The order of `std::set` and `std::map` is not modelled. Loops over the blocks, predecessors, successors and seen labels pick their elements in any order, and every contract holds for every order. This makes three choices nondeterministic:
  - `exit_to_node` is any successor of the caller, not the first one;
  - the fallthrough of a branch whose target is not a successor is either successor;
  - the order of the joins over predecessors.
- **Undefined behaviour in the source.**
  - A caller without successors (`front()` of an empty list) is the error `NoReturnSuccessor`.
  - A lookup of a missing block is `MissingBlock`.
  - A branch block with two successors that does not end in a conditional jump is `MalformedBranch`.
- **prepare_cfg.** `prepare_cfg`, `explicate_assertions` and `cfg.simplify` are not part of this model. The conversion passes are modelled one by one.
- **The WTO.** The WTO and the nesting of labels (crab/wto.hpp) are inputs, built elsewhere.
- **The base domain.** The base abstract domain (ebpf_domain_t) is a record of operations. Its own values, its transfer functions and `initialize_loop_counter` are parameters.
- **Partition domain members not modelled.**
  - `setup_entry`, `from_constraints`, `calculate_constant_limits` and `to_set` change only partition 0, or merge, before calling into the base domain.
  - `set_require_check` and `widening_thresholds`, and the printer, pass a callback, thresholds or a stream to the base domain.
  - The `key` field of `partition_t` is never read.
- **Global and thread-local state.**
  - `thread_local_options.check_termination` and `label_to_partition_key` are parameters.
  - The name table is the field of `VariableFactory.VariableRegistry`. `clear_thread_local_state` and the lazy allocation of the table are not modelled.
  - `printing_order` compares names as strings; it is not modelled because nothing in the core uses its result.
- **The CFG passed by reference.** `run_forward_analyzer` changes the caller's CFG in place; the model returns the changed CFG instead.
- **Integer widths.** Labels, offsets, iteration counters and statistics are unbounded integers. The cast to `uint64_t` in `cell_var` is written out (`VariableFactory.ToUint64`).
- FwdAnalyzer.FixpointIterator.Ascend: the source's ascending loop has no bound; the model stops after `fuel` rounds, and the caller then sets `diverged` and skips the decreasing sequence.
- FwdAnalyzer.FixpointIterator.Descend: the exit test is stated for the invariant the loop ended with; it is the head's pre only when the head does not occur again inside the cycle.
- FwdAnalyzer.RunForwardAnalyzer: the entry's final pre is stated only when the entry is a plain top-level label, since a cycle holding it rewrites it. It states the coherence of the two tables and the instrumentation, not that the tables form a post-fixpoint of the whole CFG; that would need the widening and narrowing laws of the base domain.
- FwdAnalyzer.FixpointIterator.VisitAll: states which labels may be written, not that every reachable label is visited.
- AsmCfg.InstructionSeqToCfg: with local calls, states well-formedness and the flat labels; the effect of each inlining is stated by NestedInlining.AddCfgNodes.
- NestedInlining.InlineCall: below full depth, states that a nested inlining stays within the frame `to_string(caller)`, not its exact result; the exact result of one clone is stated by MacroInlining.CloneMacro.
- PartitionDomain.JoinPartitioned: strict sortedness and exact keys are stated for a base join that keeps the packet-size interval of two partitions that share it.
- PartitionDomain.SortByKey: `std::sort` is not stable; the model's sort is an insertion sort, so the order among partitions with equal keys is one of those `std::sort` may produce.
