# Verified models of the GenieX core

Dafny models of five parts of the repository, with the properties they exist for proved over every input,
every run and every interleaving. `dafny verify dfyconfig.toml` checks all of it.

- `ssd/`: tree-based self-speculative decoding (`models/llama3_2_ssd/ssd_model.cpp`), from the layout of the
  draft tree to the whole of `generate`, on top of the strided key/value copies of `core/src/llm/llm_model.cpp`.
  The forward pass is an arbitrary function of the visible cache entries in order, the token and the position,
  to a cache entry and a row of logits. A pass evaluates the block slot by slot through its attention mask.
- `threadpool/`: the worker pool (`core/src/threadpool.cpp`) as a state machine whose steps are the sections
  that hold the mutex, with explicit wait sets and program counters. Spurious wake-ups are steps.
- `half/`: conversion between binary32 and binary16 (`core/src/utils.cpp`) against sections 3.4 and 4.3.1 of
  IEEE 754-2019. C's bit operators are defined bit by bit on natural numbers.
- `graph/`: quantization and the typed reads and writes of a graph's tensors (`core/include/utils.h`,
  `core/src/graph.cpp`) over byte buffers. The arithmetic of the kernels is exact; rounding a real to a float
  is an arbitrary function.
- `coverage/`: the unified-diff parser of the patch-coverage gate (`scripts/diff_coverage.py`) against a printer
  for diffs with any choice of context.
- `buffers/`: tensor buffer ownership (`qnn-api/src/ClientBuffer.cpp`).

Where the source updates objects in place the model has a class (`SsdModel`, `ThreadPool`, `ClientBuffer`,
`Graph`, `Listener`) or works on arrays; each method is proved against a function or predicate whose own
properties are proved as lemmas. `Extents`, `Bytes` and `Options` are shared.

## Main results

- Speculation is lossless. Whatever is drafted, an iteration accepts exactly the tokens that feeding one token
  at a time and taking the largest logit would produce (`StepIsLossless`), and this carries through the mask, the
  positions, the strided copies and the loop state to what `generate` returns (`SsdModel.Generate`). The next draft
  is filled from the forecast computed on top of exactly what the cache then holds (`SsdModel.Iterate`). The contracts
  give the whole run as a trace (`SsdRun`), so that every ending is one the loop came to, and say for each ending what
  the cache then holds relative to the output (`OutcomeDelivers`).
- Generation never writes past a row of the cache, for any model of the given sizes, exactly if a condition on the
  context length, the token limit and the number of levels holds before the call (`NeverFullIff`); without it a
  concrete model fills the cache up (`FillUp`).
- The pool loses no wake-up, dispatches every job once and in order, is a sound barrier, and drains before it
  resets, over all interleavings (`PoolRuns`); every fair run comes to an end of its jobs (`FairRunsDrain`).
- The fp16 conversion returns the nearest value, ties to even, for every input, and back again (`Half`, `HalfArrays`).
- The diff parser inverts the printer, and for a covered file exactly when the diff is clean (`RightIffClean`); for
  several files the report is the union of the files' own reports (`ReportIsUnion`), and right under exact conditions
  (`AllRightIffClean`, `RightIffStraysWanted`).
- No buffer is freed twice or freed when it is external, and freeing everything leaves nothing if and only if no
  allocation lost a block (`NoLeakIff`); shared memory stays valid as long as its source is left alone (`SharedStays`).

## Where the code and an expectation differ

The models keep the code's behaviour.

- The first token goes into the cache twice (`ssd_model.cpp:610-617`): once by the initial pass and once as the root
  of the first draft. Generation is therefore greedy decoding from the prompt followed by two copies of the first
  token. `ReplayHarmlessIff` says that some model notices exactly if the call can come to a pass: with a token limit
  of at least one and room for two columns beyond the context. `ReplayShows` gives such a run.
- The guard at `ssd_model.cpp:627` compares with the context length, while the cache has `seq_len_decode` fewer
  columns: it lets every pass through that starts within the cache, and the loop of the model never ends at it
  (`DecodeLoop`). The source has no other check: where the accepted columns would leave the row of the cache the model
  ends with `CacheFull` instead of writing.
  `NeverFullIff` is the condition under which this does not happen (`Roomy`): the context fits at the prefill stride,
  and at the decode stride there is room beyond it for 1 column if `max_tokens <= 0`, for `levels + 2` if it is 1, and
  for `levels + max_tokens` otherwise. The same room at the prefill stride is what the switch back needs: without it
  the valid columns are cut off while the position stays (`KeepsAllIff`).
- The initial pass lays its forecast tokens over the first slots of the draft tree, which are a chain only if every
  level but the last branches once. Exactly then the first draft is filled from the forecast on top of the first token
  (`InitialForecastIff`); with branches such as 3 and 2 a model that goes by positions is misled (`WideMisleads`).
- When the callback refuses a token in the middle of an accepted block, the cache keeps the rest of the block but its
  last token, although the caller never saw it (`KeepsUnseenIff`).
- `threadpool.h` says that `stop()` does not drain; the workers do drain the queue before they exit. What may be
  dropped is exactly what is enqueued after the last one has exited (`DroppedAreLate`), and then, and only
  then, a waiter can be left asleep with nothing outstanding (`StrandedIffLate`). `stop()` also keeps a recorded
  exception for a later `wait()` (`ErrorOutlivesStop`).
- A "\ No newline at end of file" marker before an added line shifts the reported numbers, and an added line
  that begins with "++ " is read as a file header, even of another file (`RightIffClean`,
  `AllRightIffClean`, `ReplacedLine`, `MaskRetargets`). Two such lines can cancel out (`StraysCompensate`).
- A tensor never leaves the set of aliased tensors, so a block allocated for it later is never freed
  (`AliasedForEver`, `AllocatedForAliased`).

## Model

| member | source | states |
|---|---|---|
| `DraftTree.GenAttentionMap` | models/llama3_2_ssd/ssd_model.cpp:86-120 | the tree is the breadth-first layout of the branching factors followed by one forecast chain per node, with the per-level sample and node counts |
| `DraftTree.LayoutIsTree` | models/llama3_2_ssd/ssd_model.cpp:86-120 | in that layout every parent precedes its children and slot 0 is the only root |
| `DraftTree.LayoutUnique` | models/llama3_2_ssd/ssd_model.cpp:86-120 | the closed form (level sizes, parents, chain slots) determines the whole map |
| `DraftTree.ChildrenAre` | models/llama3_2_ssd/ssd_model.cpp:93-110 | a draft node of depth d has branches[d] children, next to each other, and the nodes of the last level have none |
| `DraftTree.ChainsAre` | models/llama3_2_ssd/ssd_model.cpp:112-118 | behind the N draft nodes, slot N + i * levels + d hangs below node i for d == 0 and below the slot before it otherwise |
| `DraftTree.SlotCountIsProduct` | models/llama3_2_ssd/ssd_model.cpp:86-120 | the block has nodes * (levels + 1) slots |
| `DraftTree.LevelDepth` | models/llama3_2_ssd/ssd_model.cpp:86-120 | the nodes of level d have depth d |
| `DraftTree.ForecastPath` | models/llama3_2_ssd/ssd_model.cpp:86-120 | the root path of a node's d-th forecast slot is the node's root path followed by its first d + 1 chain slots |
| `DraftTree.PathIsAncestors` | models/llama3_2_ssd/ssd_model.cpp:237-246 | the root path lists exactly the ancestors-or-self |
| `TreeMask.BuildTreeAttentionMask` | models/llama3_2_ssd/ssd_model.cpp:216-250 | in row i a cache column in [fp, n_past) ([0, n_past) from the prefix offset on) and every slot that going up the parents from i leads to add 0.0 to a score; every other cell, padding rows included, takes off at least 10^9; the walk terminates |
| `DraftTree.OnPathIsReached` | models/llama3_2_ssd/ssd_model.cpp:237-246 | the ancestors that the path lists are the slots the walk up the parent array visits |
| `TreeMask.ComputeTreePositionIds` | models/llama3_2_ssd/ssd_model.cpp:322-336 | the position of slot i is n_past - fp plus its depth |
| `TreeMask.MaskedPassIsTreePass` | models/llama3_2_ssd/ssd_model.cpp:345-387 | mask and positions together make the pass a tree pass |
| `ForwardPass.TreePassIsCausal` | models/llama3_2_ssd/ssd_model.cpp:216-250 | the tree mask lets no slot see a later one, and each sees itself |
| `ForwardPass.PickAncestors` | models/llama3_2_ssd/ssd_model.cpp:235-246 | a row that is open on the ancestors of i attends to the entries along i's root path, in path order |
| `ForwardPass.TreeSlotSees` | models/llama3_2_ssd/ssd_model.cpp:345-387 | a slot is computed from its share of the cache and then its proper ancestors, root first |
| `ForwardPass.TreePassIsSequential` | models/llama3_2_ssd/ssd_model.cpp:345-387 | each slot that skips the prefix gets what feeding its root path one token at a time after the cached context gives |
| `Forecast.ForecastSlotSees` | models/llama3_2_ssd/ssd_model.cpp:638-643 | a forecast slot sees the forecast prefix, the context extended by its node's root path, and the node's earlier forecast slots, at the position that follows |
| `Forecast.ChainIsForetold` | models/llama3_2_ssd/ssd_model.cpp:638-643 | one pass gives each node the forecast that feeding the forecast tokens in turn on top of that node would give |
| `Redraft.BlockCarriesForecast` | models/llama3_2_ssd/ssd_model.cpp:122-130 | the generated forecast tokens put token vocab + d into the d-th forecast slot of every node |
| `Redraft.PassForetells` | models/llama3_2_ssd/ssd_model.cpp:677-680 | the logits rows from nodes + id * levels on hold the forecast on top of the context extended by node id's root path |
| `Decoding.ArgmaxLogits` | models/llama3_2_ssd/ssd_model.cpp:144-146 | the first largest entry |
| `Decoding.GreedyUnique` | models/llama3_2_ssd/ssd_model.cpp:626-681 | a token list in which each token is the pick after everything before it is greedy decoding |
| `Decoding.RolloutResumes` | models/llama3_2_ssd/ssd_model.cpp:626-681 | greedy decoding can be cut anywhere and resumed |
| `Acceptance.VerifyDraftTree` | models/llama3_2_ssd/ssd_model.cpp:185-214 | returns an acceptance: a root path of first matching children with the model's picks along it, stopped by an end-of-sequence token or because no later child carries the last pick |
| `Acceptance.AcceptedIsPath` | models/llama3_2_ssd/ssd_model.cpp:185-214 | the accepted ids are exactly the root path of the last one |
| `Acceptance.AcceptedAscend` | models/llama3_2_ssd/ssd_model.cpp:185-214 | accepted ids strictly increase, so cache order is path order |
| `Acceptance.AcceptedLength` | models/llama3_2_ssd/ssd_model.cpp:185-214 | between 1 and levels + 1 tokens are accepted |
| `Acceptance.EosIsLast` | models/llama3_2_ssd/ssd_model.cpp:208-210 | an end-of-sequence token is the last accepted one |
| `Acceptance.AcceptanceUnique` | models/llama3_2_ssd/ssd_model.cpp:185-214 | a pass has exactly one acceptance |
| `Acceptance.StepIsLossless` | models/llama3_2_ssd/ssd_model.cpp:626-681 | for any draft and any forward function the accepted tokens are the next greedy tokens after the context and the root |
| `Acceptance.AcceptedEntries` | models/llama3_2_ssd/ssd_model.cpp:647-653 | the entries of the accepted slots extend those of the context by the root and all but the last accepted token |
| `Sampling.TopKLogits` | models/llama3_2_ssd/ssd_model.cpp:132-142 | k distinct tokens with the largest logits, best first; nothing left out is larger |
| `SampleTree.BuildSampleTree` | models/llama3_2_ssd/ssd_model.cpp:148-183 | exactly N tokens; the children of a node are the level's top-k tokens in order without the node's own token; no index leaves the samples |
| `Sampling.SiblingsDistinct` | models/llama3_2_ssd/ssd_model.cpp:148-183 | siblings carry different tokens, and each differs from its parent's |
| `Sampling.OneChildMatches` | models/llama3_2_ssd/ssd_model.cpp:148-183 | at most one child of a node can match the verified token |
| `KvCopy.CoalesceRuns` | models/llama3_2_ssd/ssd_model.cpp:265-285 | the runs cover exactly the selected positions, in order, and are maximal |
| `KvCopy.PositionsAreSelected` | models/llama3_2_ssd/ssd_model.cpp:265-285 | the positions read off the selection are the selected ones, ascending |
| `KvCopy.CopyRows` | core/src/llm/llm_model.cpp:442-473 | a run of columns of every row is copied; every other byte stays |
| `KvCopy.CopySelected` | models/llama3_2_ssd/ssd_model.cpp:286-320 | column dest + k of every row is source column p_k; every other byte stays |
| `KvCache.GatheredAppends` | models/llama3_2_ssd/ssd_model.cpp:263-320 | such a copy appends the selected entries to the valid columns of the cache |
| `KvReshape.Reshape` | core/src/llm/llm_model.cpp:491-553 | changing the stride in place, backward or forward, moves every kept column of every row intact and, when it expands, fills the new columns with the encoded zero of the element type, of one byte or two, if it has one |
| `KvReshape.EncodedZeroIsZero` | core/src/llm/llm_model.cpp:44-70 | an encoded zero dequantizes to 0 under the offset that centres the range of an unsigned type, and is all zero bytes for the others; exactly the types of eight bytes and unknown ones have none |
| `KvCache.ColumnBytes` | core/src/llm/llm_model.cpp:442-473 | byte b of row r of column c lies at ((r * stride) + c) * unit + b of the buffer |
| `KvCache.ReshapedColumn` | core/src/llm/llm_model.cpp:491-553 | a kept column is the same at the new stride |
| `TreeMask.BuildPrefillMask` | models/llama3_2_ssd/ssd_model.cpp:524-530 | in row i of a chunk the columns [fp, n_past) and the chunk up to i add 0.0 to a score; every other cell, padding rows included, takes off at least 10^9 |
| `TreeMask.CausalPassIsTreePass` | models/llama3_2_ssd/ssd_model.cpp:524-538 | a prefill chunk is a pass over a chain |
| `TreeMask.ChunkEntriesAreSequential` | models/llama3_2_ssd/ssd_model.cpp:514-571 | its entries are those of feeding the chunk one token at a time |
| `SsdSpec.NextChunk` | models/llama3_2_ssd/ssd_model.cpp:514-521 | the chunks partition the prompt in order |
| `SsdSpec.LastChunkIsRemainder` | models/llama3_2_ssd/ssd_model.cpp:579-580 | the sampled row is (prompt length - 1) mod the chunk size |
| `SsdSpec.AcceptedResults` | models/llama3_2_ssd/ssd_model.cpp:638-653 | everything the loop relies on about one verified pass, from the pass alone |
| `SsdFacts.StepFacts` | models/llama3_2_ssd/ssd_model.cpp:626-681 | from any loop head, an iteration that goes on re-establishes the loop invariant with at least one more token; it ends with a full cache iff the accepted columns do not fit; every other ending has its cause, and says what the cache holds relative to the output |
| `SsdFacts.AcceptedGreedily` | models/llama3_2_ssd/ssd_model.cpp:626-681 | what verification accepts on top of any fed context is the next greedy tokens, at least one and at most levels + 1, with an end-of-sequence token only at the end |
| `SsdFacts.AcceptsOne` | models/llama3_2_ssd/ssd_model.cpp:185-214 | the draft and the model determine what is accepted |
| `SsdFacts.OutcomeDelivers` | models/llama3_2_ssd/ssd_model.cpp:506-692 | every run is greedy decoding from the context and two copies of the first token; an end-of-sequence ending leaves the cache with everything output, any other with all but the last token, and a refusal also with the unseen accepted tokens but the last; at most max_tokens passes and max_tokens + levels + 1 tokens; no pass delivers exactly one token |
| `SsdFacts.KeepsUnseenIff` | models/llama3_2_ssd/ssd_model.cpp:655-675 | after a call the cache holds tokens the caller never saw iff the callback refused with two or more accepted tokens still to come |
| `SsdFacts.RoomSuffices` | models/llama3_2_ssd/ssd_model.cpp:626-653 | with room for the whole call no run overflows the cache |
| `RunExists.OutcomeExists` | models/llama3_2_ssd/ssd_model.cpp:506-692 | for every model and every prompt there is a run that nobody refuses, so no statement over all runs is empty |
| `SsdModel.SsdModel.constructor` | models/llama3_2_ssd/ssd_model.cpp:24-84 | the draft tree is built, the cache is the forecast prefix only, and the prefix is what the first fp columns of the buffers hold |
| `SsdModel.SsdModel.UpdateKV` | core/src/llm/llm_model.cpp:477-486 | the first n output columns of every tensor follow the destination offset |
| `SsdModel.SsdModel.SelectiveKVUpdate` | models/llama3_2_ssd/ssd_model.cpp:263-320 | in every tensor the coalesced copy equals the naive compaction of the selected columns to n_past |
| `SsdModel.SsdModel.ReshapeKV` | core/src/llm/llm_model.cpp:491-553 | every valid entry survives a change of stride |
| `SsdModel.SsdModel.RunShardsWithTreeMask` | models/llama3_2_ssd/ssd_model.cpp:345-387 | the output buffers hold the results of the tree pass over the cached columns; columns and block together fill the context length, and every mask row has that many cells |
| `SsdModel.SsdModel.PrefillPass` | models/llama3_2_ssd/ssd_model.cpp:522-560 | a prefill pass is the pass of a chain over the cached columns, at consecutive positions; columns and block together fill the context length, and every mask row has that many cells |
| `SsdModel.SsdModel.DraftPass` | models/llama3_2_ssd/ssd_model.cpp:634-645 | what is accepted is the verification of the draft by the model itself, the accepted columns hold their entries, and the last accepted node's rows hold the forecast that follows |
| `SsdModel.SsdModel.CommitAccepted` | models/llama3_2_ssd/ssd_model.cpp:647-653 | the cache then holds the unchanged prefix, the context, the root and all but the last accepted token |
| `SsdModel.SsdModel.Prefill` | models/llama3_2_ssd/ssd_model.cpp:508-571 | for any chunk size the prompt fits iff prefix, history, prompt and one prefill block do not exceed the context length; then the cache holds the history and the prompt, as if fed one by one, and the last row follows them |
| `SsdModel.SsdModel.Speculate` | models/llama3_2_ssd/ssd_model.cpp:634-653 | the accepted columns fit iff prefix, context, accepted tokens and one decode block do not exceed the context length; otherwise the cache is left as it was |
| `SsdModel.SsdModel.InitialPass` | models/llama3_2_ssd/ssd_model.cpp:599-614 | the first token joins the cache, and the rows the first draft is filled from are those of the forecast tokens laid over the first slots of the tree; in a narrow tree they are the forecast on top of the first token |
| `SsdModel.SsdModel.Emit` | models/llama3_2_ssd/ssd_model.cpp:657-672 | the accepted tokens reach the output and the callback one by one, up to an end-of-sequence token or a refusal |
| `SsdModel.SsdModel.Deliver` | models/llama3_2_ssd/ssd_model.cpp:655-680 | how the output grows, that each ending has its cause, and that the next draft has the last accepted token at its root and is filled from the forecast on top of everything fed |
| `SsdModel.SsdModel.Iterate` | models/llama3_2_ssd/ssd_model.cpp:626-681 | from any loop head, for any draft: the verified tokens are committed behind the unchanged prefix and delivered, or do not fit and nothing changes; with levels + 1 free columns they always fit |
| `SsdModel.SsdModel.DecodeLoop` | models/llama3_2_ssd/ssd_model.cpp:626-681 | the iterations form a run: each starts where the one before ended, at most max_tokens of them, and the last ends it for a reason of its own |
| `SsdModel.SsdModel.Decode` | models/llama3_2_ssd/ssd_model.cpp:616-681 | the first draft is filled from the rows of the initial pass; in a narrow tree that is the forecast on top of everything fed |
| `SsdModel.SsdModel.Generate` | models/llama3_2_ssd/ssd_model.cpp:506-692 | the output is the greedy first token and greedy decoding from the context and two copies of it, by a run of the loop; with room for the call the cache never fills up; the callback hears each token once in order and nothing after a refusal; where the final position fits below both strides, and always if there was room for the whole call at both strides, the cache is ready for the next call, with the prefix and exactly what the run has fed |
| `Findings.ReplayHarmlessIff` | models/llama3_2_ssd/ssd_model.cpp:610-617 | feeding the first token twice goes unnoticed by every model of the given sizes iff the call cannot come to a pass: max_tokens is not positive, or the context, or two columns beyond it, do not fit |
| `Findings.ReplayShows` | models/llama3_2_ssd/ssd_model.cpp:610-617 | otherwise a run of some model whose output is not plain greedy decoding |
| `Findings.OutcomeIsReplayed` | models/llama3_2_ssd/ssd_model.cpp:506-692 | what any run returns is that replayed continuation |
| `Findings.NeverFullIff` | models/llama3_2_ssd/ssd_model.cpp:626-653 | for the given sizes, no model and no run writes past the cache iff the room computed from prefix, context, token limit and levels is there before the call |
| `Findings.KeepsAllIff` | models/llama3_2_ssd/ssd_model.cpp:684-689 | for the given sizes, every call of every model leaves the cache whole, with no column lost in the switch back to the prefill stride, iff there is room for the whole call at both strides before it |
| `Findings.TrapLoses` | models/llama3_2_ssd/ssd_model.cpp:684-689 | otherwise a run of one model that fills the cache up or feeds more than the prefill stride holds |
| `SsdFacts.RoomKeepsAll` | models/llama3_2_ssd/ssd_model.cpp:506-692 | with room at both strides no run loses a column |
| `Overflow.TrapFeedsAll` | models/llama3_2_ssd/ssd_model.cpp:626-681 | every run of one model that nobody refuses fills the cache up or feeds as many columns as a call ever can |
| `Overflow.TrapOverflows` | models/llama3_2_ssd/ssd_model.cpp:626-653 | without that room, every run of one model that nobody refuses ends with a full cache |
| `OverflowRun.FillUp` | models/llama3_2_ssd/ssd_model.cpp:626-653 | without that room, generation with that model on fresh buffers fills the cache up |
| `OverflowRun.FillUpSmall` | models/llama3_2_ssd/ssd_model.cpp:626-653 | so does a prompt of one token with a limit of ten in a context of eight |
| `FirstDraft.InitialForecastIff` | models/llama3_2_ssd/ssd_model.cpp:599-617 | the rows the first draft is filled from are, for every model, the forecast on top of the first token iff every level but the last branches once |
| `FirstDraft.WideMisleads` | models/llama3_2_ssd/ssd_model.cpp:599-617 | otherwise a model whose rows differ |
| `FirstDraft.InitialForecastIsChainIff` | models/llama3_2_ssd/ssd_model.cpp:599-607 | the initial forecast slots are a chain iff every level but the last branches once |
| `Forecast.RunIsRooted` | models/llama3_2_ssd/ssd_model.cpp:599-607 | in the initial pass the first token skips the prefix, and every forecast slot sees the prefix, the context and its ancestors in the tree |
| `ThreadPool.ThreadPool.BeginStart` | core/src/threadpool.cpp:14-24 | a start that finds no threads and asks for some sets the mode and has that many threads to create; any other changes nothing |
| `ThreadPool.ThreadPool.SpawnWorker` | core/src/threadpool.cpp:22-23 | one more idle worker, and one less to create |
| `PoolStarts.StartIsHonoured` | core/src/threadpool.cpp:14-36 | in every reachable state, a started pool has exactly the threads of the last start that found none, workers and those still due add up to it while starting, and it polls as that start said, until a stop |
| `PoolStarts.StartSpawns` | core/src/threadpool.cpp:14-24 | starting a stopped pool with n threads leads, in exactly n steps, to a started pool with n idle workers |
| `PoolStarts.StartIgnored` | core/src/threadpool.cpp:15-15 | a start of a started pool, or for no threads, changes nothing |
| `ThreadPool.ThreadPool.BeginStop` | core/src/threadpool.cpp:26-32 | sets the termination flag, unless no thread runs |
| `ThreadPool.ThreadPool.ResetState` | core/src/threadpool.cpp:37-42 | clears queue, counter and flag, and nothing else |
| `ThreadPool.ThreadPool.Push` | core/src/threadpool.cpp:45-52 | the job joins the end of the queue and is counted |
| `ThreadPool.ThreadPool.TryReturn` | core/src/threadpool.cpp:54-63 | the caller blocks, or returns with the recorded error, which is cleared |
| `ThreadPool.ThreadPool.TakeJob` | core/src/threadpool.cpp:75-92 | spin, sleep, exit or take the front job, by flag, queue and polling mode |
| `ThreadPool.ThreadPool.RecordError` | core/src/threadpool.cpp:94-99 | the first error is kept |
| `ThreadPool.ThreadPool.FinishJob` | core/src/threadpool.cpp:101-104 | the job is counted off and at zero every waiter is woken |
| `PoolSpec.StepKeepsInv` | core/src/threadpool.cpp:14-106 | every step of any thread keeps the counter, queue, wake-up, barrier and error invariants |
| `PoolSpec.BusyIsOutstanding` | core/src/threadpool.cpp:101-104 | the unsigned counter is positive whenever it is decremented |
| `PoolSpec.BlockedIsWoken` | core/src/threadpool.cpp:54-63 | no waiter stays asleep while nothing is outstanding, unless a job was dropped |
| `PoolRuns.FirstInFirstOut` | core/src/threadpool.cpp:45-92 | in every reachable state the jobs taken, then the queue, are the jobs not dropped in the order enqueued, so that without drops the k-th taken is the k-th enqueued; the counter is the number of jobs that have not ended |
| `PoolRuns.RunAdvances` | core/src/threadpool.cpp:65-106 | over every run a job only moves forward: taken at most once, by one worker, ended at most once |
| `PoolRuns.WaitIsBarrier` | core/src/threadpool.cpp:54-63 | when a wait has returned, every job enqueued before it was called has ended or was dropped |
| `PoolRuns.WaitReports` | core/src/threadpool.cpp:54-63 | a wait rethrows iff some job failed unreported since the last report, and then the first recorded exception; afterwards none is pending |
| `PoolRuns.RethrownOnce` | core/src/threadpool.cpp:54-63 | no exception is rethrown by two waits, and each is that of a job that failed |
| `PoolRuns.WorkIsBounded` | core/src/threadpool.cpp:65-106 | in every run the steps that are not busy-waiting are bounded by the work present at the start and the work that arrives |
| `PoolRuns.SomeWorkIsEnabled` | core/src/threadpool.cpp:65-106 | while a job is outstanding and a worker has not exited, a worker or a pending notify can move: no lost wake-up |
| `PoolRuns.QuietIsDone` | core/src/threadpool.cpp:65-106 | when only spinning is left, nothing is outstanding and no waiter sleeps |
| `PoolRuns.CanDrain` | core/src/threadpool.cpp:65-106 | worker steps alone bring the counter to zero, within the bound |
| `PoolProgress.FairRunsDrain` | core/src/threadpool.cpp:14-106 | in every endless run in which nothing arrives and work that stays possible is not put off for ever, the counter comes to zero, whatever the scheduler does |
| `PoolProgress.SpentIsDone` | core/src/threadpool.cpp:65-106 | a run that has made as many steps of work as the bound allows has nothing outstanding |
| `PoolRuns.JoinIsReached` | core/src/threadpool.cpp:26-36 | after the notification of stop, the workers can move until all have exited |
| `PoolRuns.DroppedAreLate` | core/src/threadpool.cpp:26-43 | over every run the jobs dropped, and those about to be, are exactly the enqueues that came after the last worker had exited |
| `PoolRuns.DroppedIffLate` | core/src/threadpool.cpp:26-43 | a job was dropped iff such an enqueue precedes a reset |
| `PoolRuns.ResetChangesNothing` | core/src/threadpool.cpp:37-42 | without late enqueues the reset finds the queue empty, every job ended and the counter at zero, and leaves a pool that can start again |
| `PoolFindings.StrandedIffLate` | core/src/threadpool.cpp:26-43 | from the end of a stop, with k more enqueues to come before the reset, a waiter can be left asleep with nothing outstanding iff some enqueue was or will be late |
| `PoolFindings.CanStrand` | core/src/threadpool.cpp:26-43 | from every state with all workers gone and a job left behind, waiting, joining and resetting strands a waiter |
| `PoolFindings.ErrorOutlivesStop` | core/src/threadpool.cpp:26-43 | only a returning wait takes the recorded exception; stop and start leave it |
| `Half.FloatToHalfRounds` | core/src/utils.cpp:15-50 | every input but NaN gets the nearest binary16 value, ties to even, the same sign, and infinity beyond the range; NaN becomes infinity |
| `Half.HalfToFloat` | core/src/utils.cpp:52-81 | the same sign and value for every finite input, infinity for infinity, the payload of a NaN |
| `Half.Normalize` | core/src/utils.cpp:62-70 | the shift loop ends within ten steps with the leading one in place and the same value |
| `Half.Increasing16` | core/src/utils.cpp:15-50 | larger binary16 encodings have larger values |
| `HalfArrays.RoundTrip` | core/src/utils.cpp:15-81 | widening any half but a NaN and rounding it back gives the same bits |
| `HalfArrays.RoundsMonotone` | core/src/utils.cpp:15-50 | rounding is monotone in the signed values |
| `HalfArrays.RoundsUnique` | core/src/utils.cpp:15-50 | the promise determines the result |
| `HalfArrays.OverflowsFrom65520` | core/src/utils.cpp:15-50 | the result is infinite iff the magnitude is at least 65520 |
| `HalfArrays.FloatToFloat16` | core/src/utils.cpp:83-85 | element by element for any n, and nothing else is written |
| `HalfArrays.Float16ToFloat` | core/src/utils.cpp:87-89 | element by element for any n, and nothing else is written |
| `TensorSpec.Real32IsWorth` | core/include/utils.h:72-92 | the value of a finite float is its sign times (2^23 + fraction) * 2^(exponent - 150), or fraction * 2^-149 for a subnormal |
| `TensorSpec.IntegerFloat` | core/include/utils.h:72-92 | every integer up to 2^24 in size is the value of the float with the leading one at its place |
| `TensorSpec.StorableIff` | core/src/graph.cpp:40-82 | which floats the conversions are defined for, by what they are worth |
| `Quantization.RoundTripBound` | core/include/utils.h:72-99 | quantizing and dequantizing a value in range loses between 0 and one step; a value out of range comes back as the nearer end |
| `Quantization.QuantizeMonotone` | core/include/utils.h:72-92 | quantization is monotone |
| `Quantization.QuantizeDequantize` | core/include/utils.h:72-99 | every code is a fixed point |
| `TensorSpec.TensorByteSize` | core/include/utils.h:38-70 | the product of the dimensions times one, two, four or eight bytes by type; an unknown type throws |
| `TensorSpec.ElementsFill` | core/src/graph.cpp:27-31 | the elements of a tensor of a type that can be written fill its bytes exactly |
| `TensorSpec.ProductJoin` | core/include/utils.h:66-69 | the number of elements is that of the outer times that of the inner dimensions |
| `TensorSpec.CodeFits` | core/src/graph.cpp:40-82 | the number stored for an element fits its width |
| `TensorSpec.WriteThenRead` | core/src/graph.cpp:22-83 | an element read back is the float unchanged, rounded once through half precision, its worth without the fraction, or within one step of its worth and at the nearer end outside the range, before the final rounding |
| `Bytes.LittleEndian` | core/src/graph.cpp:40-82 | the stored bytes of a number are weighted by their places, the lowest first |
| `GraphIo.FloatToTfN` | core/include/utils.h:72-92 | the quantized elements, little-endian, and the rest of the buffer unchanged |
| `GraphIo.StoreElement` | core/src/graph.cpp:40-82 | the bytes of one element and no other |
| `GraphIo.Graph.Write` | core/src/graph.cpp:22-83 | unknown name, overflow and unsupported type, in that order and exactly then; otherwise the elements are stored; nothing is written on an error or past the tensor; a write of no more elements than a tensor has never overflows |
| `GraphIo.Graph.Read` | core/src/graph.cpp:251-292 | the elements from the offset on, by type, and the rest of the destination unchanged; an unsupported type throws |
| `GraphIo.ReadBack` | core/src/graph.cpp:251-292 | through a graph that copies its input, every element comes back at any element offset within the bound |
| `DiffCoverage.ChangedLines` | scripts/diff_coverage.py:25-51 | the loop over the lines is the fold of the parser's step |
| `HunkPattern.HunkStartIff` | scripts/diff_coverage.py:35-44 | a positive start is read from a line iff the line matches the hunk pattern with that number captured; a line without a match gives 0 |
| `DiffProperties.HunkStartIsRead` | scripts/diff_coverage.py:35-43 | the pattern captures the new-side start of every printed hunk header, with and without counts |
| `DiffProperties.TargetIsRead` | scripts/diff_coverage.py:38-41 | the path is read back from a printed target line, blanks and trailing tab included |
| `DiffProperties.DiffIsRead` | scripts/diff_coverage.py:25-51 | for any clean multi-file diff of any context the result maps each covered file to its added lines |
| `DiffProperties.AddedAreMarked` | scripts/diff_coverage.py:44-50 | an added line's number is its place in the new file |
| `DiffProperties.ReportedIffAdded` | scripts/diff_coverage.py:25-51 | a number is reported for a file iff that line of the new file was added and the file is covered |
| `DiffLimits.RightIffClean` | scripts/diff_coverage.py:37-50 | for a covered file the report is right iff no added line begins with "++ " and no end-of-file marker precedes an added line |
| `DiffFiles.AllRightIffClean` | scripts/diff_coverage.py:25-51 | for a diff of several files, as long as no file that is not covered has a line reported through an added line that looks like a header, the report is right iff every covered file is clean |
| `DiffFiles.ReportIsUnion` | scripts/diff_coverage.py:25-51 | the report of a diff is the union of what the parser reports of each file by itself |
| `DiffFiles.RightIffStraysWanted` | scripts/diff_coverage.py:25-51 | if every covered file is clean, the report is right iff whatever is reported of the other files was wanted anyway |
| `DiffFiles.StraysCompensate` | scripts/diff_coverage.py:37-50 | a header-like line of a file that is not covered can make up for one that a covered file lost, so that the report is right though the file is not clean |
| `DiffFiles.MaskRetargets` | scripts/diff_coverage.py:37-50 | an added line that looks like a header, in a file not covered, makes the next added line count for a file the diff does not touch |
| `DiffLimits.ReplacedLine` | scripts/diff_coverage.py:44-50 | replacing the only line of a file without a final newline reports line 2 for line 1 |
| `ClientBuffer.ClientBuffer.AllocateTensorBuffer` | qnn-api/src/ClientBuffer.cpp:27-42 | the tensor gets raw memory, the block and the size; for a null argument nothing changes, and a failed allocation changes only the memory type |
| `ClientBuffer.ClientBuffer.FreeTensorBuffer` | qnn-api/src/ClientBuffer.cpp:44-57 | a tensor with memory becomes undefined, null and of size 0; its block is freed unless it is aliased |
| `ClientBuffer.ClientBuffer.UseSameMemory` | qnn-api/src/ClientBuffer.cpp:59-72 | the old buffer goes, the destination has the type, pointer and size of the source (for a tensor with itself what freeing leaves) and is aliased for good, and no other tensor changes |
| `BufferSpec.SharesMemory` | qnn-api/src/ClientBuffer.cpp:59-72 | both tensors then use the same memory, which only the source owns |
| `BufferSpec.SharedStays` | qnn-api/src/ClientBuffer.cpp:27-91 | over every run that leaves the source alone its block stays live and its own, whatever is done with the tensors that share it |
| `ClientBuffer.ClientBuffer.UseExternalMemory` | qnn-api/src/ClientBuffer.cpp:74-91 | the old buffer goes, the tensor has raw memory at the external pointer with the old size and is aliased, and no other tensor changes |
| `BufferSpec.StepKeepsInv` | qnn-api/src/ClientBuffer.cpp:27-91 | every operation keeps: each tensor outside the alias set is empty or owns a live block of its own |
| `BufferSpec.FreesAreSound` | qnn-api/src/ClientBuffer.cpp:44-57 | whatever is freed is a live block, freed once; external memory never is |
| `BufferSpec.LiveAreOwnedOrLost` | qnn-api/src/ClientBuffer.cpp:27-91 | over every run the live blocks without an owner are exactly the allocations that lost one |
| `BufferSpec.NoLeakIff` | qnn-api/src/ClientBuffer.cpp:27-91 | after any run, freeing every tensor leaves no live block iff every successful allocation was for an empty tensor never aliased before |
| `BufferSpec.AllocatedForAliased` | qnn-api/src/ClientBuffer.cpp:44-57 | a block allocated for a tensor aliased before survives its free and has no owner |

## Left out

- Transformer arithmetic, RoPE values and the shard pipeline: a pass over all shards is one evaluation of an arbitrary
  forward function; the key and value tensors of all shards are one list of strided tensors.
- Output buffers of a pass are values rather than arrays in place; only the cache buffers are updated in place.
- int32 casts of positions and token ids: unbounded here. Values that C++ leaves undefined to cast are excluded.
- `TopKLogits` and ties: equal logits may be ordered either way, as `std::partial_sort` allows.
- `SsdModel.SsdModel.Generate`: non-empty prompts; sampling is greedy; a cache that would overflow ends with
  `CacheFull`.
- `KvReshape.Reshape`: the bytes of a unit are whole elements of a type with a size, as the source demands.
- `loadForecastPrefix` and `resetKVCache`: the prefix columns are whatever the buffers hold at the start.
- The clock keeper, CPU affinity and memory order of the pool, and the destructor: no effect on jobs.
- A single thread starts and stops the pool; concurrent calls of `start()` and `stop()` are not modelled.
- `Half.FloatToHalfRounds`: a word is a natural number; signalling of exceptions is not modelled.
- `Graph::write` for doubles, raw bytes and int32, `setup` and `buildSpecs`: the same conversions or plain copies.
- `GraphIo.Graph.Read`: the caller keeps the offset inside the buffer, as the source has no check.
- `RoundTripBound`: exact real arithmetic; the rounding inside the double computation is not modelled.
- `DiffCoverage.ChangedLines`: the diff arrives as lines; the extra line separators of `splitlines`, Unicode digits and
  blanks, and paths that git quotes are not modelled, and a path must not end in a blank.
- The other functions of the coverage gate: set arithmetic and printing.
- Fused and DMA buffers: empty or foreign calls. What an alias reads after its source was freed is not modelled.
