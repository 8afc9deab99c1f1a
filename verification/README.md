# Sparse attention kernels and agent protocols

Two parts of the repository are modelled here.

The first is the set of sparse attention and indexer kernels under `scripts/glm52-overlay/kernels`.
Several fast forms there must agree with one simple definition. All arithmetic is over exact reals;
`exp` and `log` are parameters of which only the algebraic laws are used (`Softmax.IsExp`,
`SinkFinish.IsLog`), and a score is either minus infinity or a real. A kernel is modelled as the work of
one program of its launch grid for one token and one head, with the same loops, masks and merge order.

The second is the agent: its self-update, the race between deploy and stop, detached benchmark jobs with
their log follower, and four text encoders. Protocols are state machines in which every external step may
fail or be interleaved with any other.

| file | what it holds |
|---|---|
| `Wrappers.dfy` | the option type and the text operations the others share |
| `Softmax.dfy` | the direct softmax sums, change of base, concatenation, state merging |
| `Lanes.dfy` | masked candidate columns and the reductions over a tile of them |
| `IndexedAttention.dfy` | one candidate at a time, chunk by chunk, gathered first, and fused tile by tile |
| `SplitAttention.dfy` | score, stats and value passes, the two merge kernels and the chunked driver |
| `SinkFinish.dfy` | every way of finishing states or raw scores with an attention sink |
| `SparseForward.dfy` | the prefill and decode entry points |
| `TopK.dfy`, `IndexerTopK.dfy` | streaming top-k, and the entry points that feed it from plain keys and from the paged cache |
| `MqaLogits.dfy`, `PagedLogits.dfy` | indexer logits, their chunk sizes, split-K, paged forms and packed views |
| `PrefillWorkspace.dfy` | request ids and workspace starts, re-based in place |
| `Updater.dfy` | swap, rollback and the running updater |
| `DeployCancel.dfy` | the cancel registry and the interleaving of launches and stops |
| `BenchmarkJob.dfy`, `LogFollow.dfy` | the wrapper script with its exit file, and following the log |
| `ShellWords.dfy` | shell quoting, what sh reads, and the recipe tokenizer |
| `RepoDirName.dfy` | cache directory names |
| `RegistriesYaml.dfy` | the registries printer |

`dafny verify dfyconfig.toml` checks everything.

## Where code and documentation part ways

The model follows the code. These are the places where that matters.

- The split attention path gives an out-of-range index below `lens` the score zero and counts it. It
  agrees with the scalar kernels exactly when every such index is in range
  (`SplitAttention.SplitAgreesIff`).
- The merge kernels and the two-pass sink kernel are not a number exactly when there is neither a
  candidate nor a sink; the running sink kernels give zero there (`SinkFinish.MergeTwoCorrect`,
  `SinkFinish.TwoPassWithSink`).
- The swap deletes `-agent-old` before it knows that there is an agent to move there. After an update
  whose install and restore both failed, the next one loses the original exactly when that first command
  succeeds (`Updater.SwapWithoutCurrent`).
- A deploy that starts a launch beside an outstanding one, whatever stage that one is in, can lose the
  cancel meant for it and leave a container behind; with none outstanding no continuation can
  (`DeployCancel.DeployIsSafeIff`).
- The exit teardown keeps the `deleteAfter` it read at the exit. A stop that arrives during the teardown
  with another flag is not reflected in the launch's `stopped`: deploy, a stop without deletion, the
  launch exits, a stop with deletion, the teardown ends and still reports no deletion
  (`DeployCancel.LaunchStoppedFlagIff`, `DeployCancel.StaleFlagIsSent`).
- Starting a job does not remove an old exit file, and a status poll believes one that is there
  (`BenchmarkJob.ExitFileIsTrueIff`).
- A log that is replaced and has grown past the follower's offset is not noticed, and a missing log sends
  the follower back to byte zero without saying so (`LogFollow.ReplacedLogIsFollowedIff`,
  `LogFollow.MissingLogIsFollowedIff`).
- The tokenizer drops a word made of empty quotes when a line continuation follows and ends the word,
  where sh keeps it, and in double quotes it keeps the backslash before a dollar sign or a backquote,
  where sh removes it. On other words the two agree (`ShellWords.TokenizerAgreesIff`,
  `ShellWords.ContinuedEmptyWordIsLost`, `ShellWords.EscapedDollarKeepsBackslash`).
- A cache directory whose first part is a property that every object inherits, such as `valueOf--x`, is
  not rejected (`RepoDirName.NonKindParsesIff`, `RepoDirName.InheritedPrefixParses`), and an id that passes the deletion check can name
  another repository's directory (`RepoDirName.SafeIdsCanCollide`).

## Model

| member | source | states |
|---|---|---|
| `IndexedAttention.FusedAttention` | scripts/glm52-overlay/kernels/sm12x_sparse_mla_attn.py:498-601 | for every candidate list, cap and tile width, the tiled recurrence with its 512+64 dot split ends in the direct softmax sums of the valid candidates, including none |
| `IndexedAttention.TileStepAppends` | scripts/glm52-overlay/kernels/sm12x_sparse_mla_attn.py:561-578 | one tile takes the direct state of the columns before it to the direct state including it; a wholly masked tile changes nothing |
| `IndexedAttention.TileColumnAppends` | scripts/glm52-overlay/kernels/sm12x_sparse_mla_attn.py:574-576 | after one tile each value column is the direct weighted sum over all columns so far |
| `IndexedAttention.SplitDotKeepsScores` | scripts/glm52-overlay/kernels/sm12x_sparse_mla_attn.py:552-558 | the two dot products and the masking give the same score per lane as the one-at-a-time kernel |
| `IndexedAttention.GatherThenAttend` | scripts/glm52-overlay/kernels/sm12x_sparse_mla_attn.py:808-819 | gathering first and attending afterwards ends in the same state as the fused path |
| `IndexedAttention.MaterializedAttention` | scripts/glm52-overlay/kernels/sm12x_sparse_mla_attn.py:897-943 | the kernel's running state is the recurrence over the columns whose validity bit is set, stored into the buffers |
| `IndexedAttention.AccumulateIndexedChunk` | scripts/glm52-overlay/kernels/sparse_mla_kernels.py:986-1042 | a chunk continues the recurrence from the buffers over its in-range columns below lens minus the offset, in order |
| `IndexedAttention.AccumulateInChunks` | scripts/glm52-overlay/kernels/sparse_mla_kernels.py:1094-1172 | cut anywhere, with the width so far as offset, the state carried in the buffers ends as the direct state of all covered columns |
| `IndexedAttention.AccumulateIsDirect` | scripts/glm52-overlay/kernels/sparse_mla_kernels.py:1008-1033 | the running recurrence over any candidates, from the state of any earlier ones, is the direct sums over both |
| `IndexedAttention.ChunkContinues` | scripts/glm52-overlay/kernels/sparse_mla_kernels.py:986-992 | the per-chunk cap selects exactly the chunk's share of the valid candidates |
| `IndexedAttention.CellsPastLens` | scripts/glm52-overlay/kernels/sparse_mla_kernels.py:986-992 | columns at or past the effective length contribute nothing |
| `IndexedAttention.AppendedIndex` | scripts/glm52-overlay/kernels/sparse_mla_kernels.py:993-1032 | a further index below lens that names a row adds that row with score dot(query, row) times scale, any other adds nothing |
| `IndexedAttention.NarrowedDirect` | scripts/glm52-overlay/kernels/sm12x_sparse_mla_attn.py:164-170 | slicing the first value columns off the wide accumulator is attending over those columns only |
| `IndexedAttention.Slot.constructor` | scripts/glm52-overlay/kernels/sm12x_sparse_mla_attn.py:207-210 | fresh buffers hold the empty state |
| `IndexedAttention.Slot.Store` | scripts/glm52-overlay/kernels/sparse_mla_kernels.py:1034-1042 | storing replaces maximum, denominator and every value column |
| `Softmax.MergeIsConcatenation` | scripts/glm52-overlay/kernels/sparse_mla_kernels.py:2086-2110 | merging the states of two candidate lists is the state of their concatenation, empty sides included |
| `Softmax.TopIsMaximum` | scripts/glm52-overlay/kernels/sparse_mla_kernels.py:1799-1820 | the reference maximum is attained and bounds every score, and is minus infinity exactly for no candidate |
| `Softmax.WeightShift` | scripts/glm52-overlay/kernels/sparse_mla_kernels.py:2155-2160 | rescaling by exp(old - new) turns a denominator based at one maximum into the one based at another |
| `Softmax.WeightedShift` | scripts/glm52-overlay/kernels/sparse_mla_kernels.py:2108-2110 | the same for every value column |
| `Softmax.DotSplit` | scripts/glm52-overlay/kernels/sm12x_sparse_mla_attn.py:552-555 | a dot product over two column blocks adds up to the whole |
| `Softmax.DotIsSumOfProducts` | scripts/glm52-overlay/kernels/sparse_mla_kernels.py:1032 | a dot product is zero for no columns and grows by x * y with each further pair |
| `Softmax.DirectIsSoftmax` | scripts/glm52-overlay/kernels/sparse_mla_kernels.py:1008-1042 | the reference in plain arithmetic: each further candidate makes the maximum the larger score, adds exp(score) to the weight sum and value times exp(score) to every value sum, all scaled by exp(-maximum) |
| `SplitAttention.ChunkedAttend` | scripts/glm52-overlay/kernels/sparse_mla_kernels.py:2221-2283 | for every chunk and block size the driver ends in the whole-list softmax state of what the split passes load |
| `SplitAttention.SplitAgreesIff` | scripts/glm52-overlay/kernels/sparse_mla_kernels.py:1762-1778 | that state is the scalar kernels' state if and only if every index below lens is in range |
| `SplitAttention.SplitAttend` | scripts/glm52-overlay/kernels/sparse_mla_kernels.py:1917-2047 | the three passes leave the direct state of the loaded columns, whatever the score buffer held before |
| `SplitAttention.SplitScores` | scripts/glm52-overlay/kernels/sparse_mla_kernels.py:1705-1778 | every score below the effective length is written and the rest of the buffer is left alone |
| `SplitAttention.SplitStats` | scripts/glm52-overlay/kernels/sparse_mla_kernels.py:1782-1820 | the pass finds the maximum and the weight sum of the loaded columns |
| `SplitAttention.SplitValues` | scripts/glm52-overlay/kernels/sparse_mla_kernels.py:1824-1914 | the blocked products add up to the weighted value columns, skipped blocks included |
| `SplitAttention.MergeChunk` | scripts/glm52-overlay/kernels/sparse_mla_kernels.py:2256-2283 | the two launches in this order leave the merge of the old running state with the chunk's |
| `SplitAttention.MergeAccKernel` | scripts/glm52-overlay/kernels/sparse_mla_kernels.py:2051-2118 | only the values change, to the merge under the old maxima |
| `SplitAttention.MergeStateKernel` | scripts/glm52-overlay/kernels/sparse_mla_kernels.py:2122-2171 | maximum and denominator become those of the merge |
| `SplitAttention.EmptyChunkChangesNothing` | scripts/glm52-overlay/kernels/sparse_mla_kernels.py:2237-2241 | a chunk whose clamped length is zero leaves the running state as it is |
| `SplitAttention.ChunkLoads` | scripts/glm52-overlay/kernels/sparse_mla_kernels.py:2234-2248 | the chunk slices with their clamped lengths load the whole list piece by piece |
| `SplitAttention.ClampedLength` | scripts/glm52-overlay/kernels/sparse_mla_kernels.py:2237-2241 | the clamped length of a chunk never exceeds it and counts exactly its columns below lens |
| `SplitAttention.StrayDiffers` | scripts/glm52-overlay/kernels/sparse_mla_kernels.py:1799-1811 | one out-of-range index below lens already changes the state |
| `SplitAttention.StrayScoresZero` | scripts/glm52-overlay/kernels/sparse_mla_kernels.py:1762-1778 | an index outside the rows scores zero and has a row of zeros |
| `SplitAttention.AppendedIndexLoads` | scripts/glm52-overlay/kernels/sparse_mla_kernels.py:1762-1778 | a further index below lens adds its row with the scaled dot product, or a zero row of score zero when it is out of range; one past lens adds nothing |
| `SinkFinish.FinishWithSinkCorrect` | scripts/glm52-overlay/kernels/sparse_mla_kernels.py:3338-3366 | finishing a state gives sum e(s)v / (sum e(s) + e(sink)), zero when there is nothing |
| `SinkFinish.FinishTwoCorrect` | scripts/glm52-overlay/kernels/sparse_mla_kernels.py:3411-3455 | finishing two states is the output over both lists and equals finishing their merge |
| `SinkFinish.MergeTwoCorrect` | scripts/glm52-overlay/kernels/sparse_mla_kernels.py:64-90 | merging two normalised subsets by log-sum-exp is the output over both, not a number exactly when both are empty and there is no sink |
| `SinkFinish.MergeOneCorrect` | scripts/glm52-overlay/kernels/sparse_mla_kernels.py:173-190 | the same for one subset |
| `SinkFinish.LseIsWeight` | scripts/glm52-overlay/kernels/sparse_mla_kernels.py:3232-3251 | the stored log-sum-exp stands for the whole weight at every base |
| `SinkFinish.LseIsLogSumExp` | scripts/glm52-overlay/kernels/sparse_mla_kernels.py:3237-3241 | it is the logarithm of the sum of exponentials |
| `SinkFinish.RunningWithSink` | scripts/glm52-overlay/kernels/sparse_mla_kernels.py:412-467 | seeding the recurrence with the sink gives the same output for finite, absent and no candidates |
| `SinkFinish.SeedVanishes` | scripts/glm52-overlay/kernels/sparse_mla_kernels.py:420-459 | an absent sink's seed weight disappears with the first candidate |
| `SinkFinish.TwoPassWithSink` | scripts/glm52-overlay/kernels/sparse_mla_kernels.py:500-556 | maximum first and sums second give the same output, except not a number when there is neither candidate nor sink |
| `SinkFinish.ValueBlocksWithSink` | scripts/glm52-overlay/kernels/sparse_mla_kernels.py:587-627 | computing the value columns block by block gives the same output |
| `SinkFinish.SinkColumnAtBase` | scripts/glm52-overlay/kernels/sparse_mla_kernels.py:3351-3355 | the output does not depend on the base the sums are rescaled to |
| `SinkFinish.DenominatorPositive` | scripts/glm52-overlay/kernels/sparse_mla_kernels.py:67-72 | wherever one of the three scores is finite the merge divides by something positive |
| `SinkFinish.SeededDenom` | scripts/glm52-overlay/kernels/sparse_mla_kernels.py:457-459 | the running sink kernels never divide by zero, candidates or not |
| `SparseForward.SparsePrefill` | scripts/glm52-overlay/kernels/sm12x_sparse_mla_attn.py:183-262 | for rows of any width of at least the value columns, the triple is the finished softmax, maximum and log-sum-exp of the direct state under the cap topk_length when there is one, with the sink attn_sink when there is one |
| `SparseForward.SparseDecode` | scripts/glm52-overlay/kernels/sm12x_sparse_mla_attn.py:768-846 | the same triple whichever way the fused switch stands |
| `SparseForward.LseCorrect` | scripts/glm52-overlay/kernels/sm12x_sparse_mla_attn.py:229-235 | the clamp at 1e-30 never changes the log-sum-exp of a non-empty state |
| `SparseForward.ReadOut` | scripts/glm52-overlay/kernels/sm12x_sparse_mla_attn.py:822-841 | reading a direct state out gives the reference result |
| `TopK.StreamTopK` | scripts/glm52-overlay/kernels/sm12x_deep_gemm_fallbacks.py:247-295 | for every chunk size and every tie-breaking, a row ends with distinct valid indices in descending order that dominate every index left out |
| `TopK.RowInPlainTerms` | scripts/glm52-overlay/kernels/sm12x_deep_gemm_fallbacks.py:177-185 | what a right row is, entry by entry: k entries, each -1 or a distinct index of a finite logit, in descending order with the -1 last, and no finite logit left out is larger than any entry |
| `TopK.ChunkKeepsTopK` | scripts/glm52-overlay/kernels/sm12x_deep_gemm_fallbacks.py:611-634 | joining a chunk's best with the best so far keeps the row right for the longer prefix, and its value buffer in step |
| `TopK.TakeChunk` | scripts/glm52-overlay/kernels/sm12x_deep_gemm_fallbacks.py:270-293 | the in-place step from a chunk's logits takes a right row and its buffer to a right row and buffer including the chunk |
| `TopK.MissingCount` | scripts/glm52-overlay/kernels/sm12x_deep_gemm_fallbacks.py:291-293 | a row has exactly max(0, k - number of valid logits) entries -1 |
| `TopK.SameValues` | scripts/glm52-overlay/kernels/sm12x_deep_gemm_fallbacks.py:177-185 | any two right rows hold equal logits place by place, however they were chunked and ties broken |
| `TopK.GlobalTopK` | scripts/glm52-overlay/kernels/sm12x_deep_gemm_fallbacks.py:285-293 | one selection from the whole row, masked to -1, is a right row |
| `TopK.StreamIsGlobal` | scripts/glm52-overlay/kernels/sm12x_deep_gemm_fallbacks.py:247-295 | so a streamed row holds place by place the logits of the global top-k |
| `IndexerTopK.MqaTopK` | scripts/glm52-overlay/kernels/sm12x_deep_gemm_fallbacks.py:206-295 | blocked logits, cleaning and streaming together leave the right row over the directly defined cleaned logits |
| `IndexerTopK.PagedTopK` | scripts/glm52-overlay/kernels/sm12x_deep_gemm_fallbacks.py:548-637 | windows of either kernel and streaming together leave the right row over the directly defined paged logits, for every chunk size |
| `IndexerTopK.ChunkLogits` | scripts/glm52-overlay/kernels/sm12x_deep_gemm_fallbacks.py:249-268 | a key chunk's head blocks add up to its slice of the cleaned row |
| `IndexerTopK.Window` | scripts/glm52-overlay/kernels/sm12x_deep_gemm_fallbacks.py:599-610 | a window is its slice of the paged row whichever kernel computed it |
| `TopK.OutsideIsDominated` | scripts/glm52-overlay/kernels/sm12x_deep_gemm_fallbacks.py:270-289 | an index dropped by its chunk or by an earlier merge is no larger than anything selected |
| `TopK.TopKOpExists` | scripts/glm52-overlay/kernels/sm12x_deep_gemm_fallbacks.py:273-290 | the contract assumed of torch.topk can be met |
| `MqaLogits.BlockedLogits` | scripts/glm52-overlay/kernels/sm12x_deep_gemm_fallbacks.py:138-174 | head and key blocks added in place give the direct weighted sum in every cell c, and when cleaning -inf exactly where c < ks or c >= ke |
| `MqaLogits.LogitIsRectifiedSum` | scripts/glm52-overlay/kernels/sm12x_deep_gemm_fallbacks.py:160-165 | a logit is zero without heads, and each further head adds weight times dot product when the dot product is positive and nothing otherwise |
| `MqaLogits.ScoreBytesBounded` | scripts/glm52-overlay/kernels/sm12x_deep_gemm_fallbacks.py:102-123 | the transient score tensor never exceeds 64 MiB or four bytes per query row, whichever is larger |
| `MqaLogits.ChunkSizesAreLargest` | scripts/glm52-overlay/kernels/sm12x_deep_gemm_fallbacks.py:102-123 | no larger head block up to eight and no larger key block would have stayed within 64 MiB |
| `MqaLogits.TritonCell` | scripts/glm52-overlay/kernels/sm12x_mqa.py:99-128 | scaling after the dot product, in head and column blocks, gives the logit of the scaled key |
| `MqaLogits.TritonRow` | scripts/glm52-overlay/kernels/sm12x_mqa.py:90-133 | a row of the Triton kernel: the logit of the scaled key in every cell, and when cleaning -inf exactly where c < ks or c >= ke |
| `MqaLogits.DotScales` | scripts/glm52-overlay/kernels/sm12x_mqa.py:117-119 | scaling the key first or the dot product afterwards is the same |
| `MqaLogits.SplitsPartition` | scripts/glm52-overlay/kernels/sm12x_mqa.py:638-640 | every column belongs to exactly one split range |
| `MqaLogits.TritonSplits` | scripts/glm52-overlay/kernels/sm12x_mqa.py:638-676 | summed over splits, the partial products and square sums are the full ones, for all widths, split counts and blocks |
| `MqaLogits.SplitPartial` | scripts/glm52-overlay/kernels/sm12x_mqa.py:642-660 | one split accumulates exactly its own columns |
| `MqaLogits.FallbackSplits` | scripts/glm52-overlay/kernels/sm12x_deep_gemm_fallbacks.py:653-665 | the fallback's split-zero layout sums to the same product |
| `PagedLogits.RowwiseWindow` | scripts/glm52-overlay/kernels/sm12x_mqa.py:343-421 | with its early exit, every cell of a window is the token's logit below the context length and -inf from there on |
| `PagedLogits.TiledWindow` | scripts/glm52-overlay/kernels/sm12x_mqa.py:223-293 | the 2D kernel gives the same cells |
| `PagedLogits.TorchRow` | scripts/glm52-overlay/kernels/sm12x_deep_gemm_fallbacks.py:406-448 | the torch loop gives the same cells for the whole row |
| `PagedLogits.KernelCell` | scripts/glm52-overlay/kernels/sm12x_mqa.py:368-414 | a cell read through the block table is the logit of its dequantized key |
| `PagedLogits.KeyOnStorage` | scripts/glm52-overlay/kernels/sm12x_mqa.py:40-45 | element d of the key at (block, slot) is the fp8 of byte offset + block * stride + slot * head_dim + d of the cache |
| `PagedLogits.ScaleOnStorage` | scripts/glm52-overlay/kernels/sm12x_mqa.py:46-52 | its scale is the fp32 of the four bytes from offset + block * stride + block_size * head_dim + slot * scale_bytes, in order |
| `PagedLogits.TokenLogitPlainly` | scripts/glm52-overlay/kernels/sm12x_mqa.py:368-414 | the logit of token t is that of the key in slot t % block_size of block table[t / block_size], every element times that slot's own scale |
| `PagedLogits.WindowsAgree` | scripts/glm52-overlay/kernels/sm12x_mqa.py:358-366 | any two forms agree on every shared cell, and -inf stands exactly at or past the context length |
| `PagedLogits.WindowIsSlice` | scripts/glm52-overlay/kernels/sm12x_deep_gemm_fallbacks.py:599-610 | consecutive windows are the slices of one row |
| `PagedLogits.ViewsTileBlock` | scripts/glm52-overlay/kernels/sm12x_mqa.py:37-52 | value and scale views address disjoint bytes that together are exactly the block |
| `PagedLogits.ViewsDisjoint` | scripts/glm52-overlay/kernels/sm12x_mqa.py:40-51 | across blocks two view elements share a byte only when they are the same element |
| `PagedLogits.OneByteOneOwner` | scripts/glm52-overlay/kernels/sm12x_mqa.py:37-52 | a change of one byte of the cache changes no key and no scale but the one that owns it |
| `PrefillWorkspace.BuildPrefill` | scripts/glm52-overlay/kernels/flashmla_sparse.py:382-471 | metadata is built exactly when there are prefills, and then request ids, starts and chunks are right |
| `PrefillWorkspace.PrefillPlainly` | scripts/glm52-overlay/kernels/flashmla_sparse.py:396-460 | the same entry by entry: a token's id is the request in whose query range it lies, or -1; a chunk carries its own bounds and token range; its starts begin at zero and grow by the length of the request before, up to the chunk's total, which fits the workspace |
| `PrefillWorkspace.SplitExists` | scripts/glm52-overlay/kernels/flashmla_sparse.py:422-426 | the contract assumed of split_prefill_chunks can be met whenever each request fits |
| `PrefillWorkspace.QueryStartExists` | scripts/glm52-overlay/kernels/flashmla_sparse.py:388 | running totals of token counts are what is assumed of query_start_loc |
| `PrefillWorkspace.RebaseChunks` | scripts/glm52-overlay/kernels/flashmla_sparse.py:428-460 | the in-place loop leaves every chunk's starts as prefix sums from the chunk's own first request |
| `PrefillWorkspace.RebaseSlice` | scripts/glm52-overlay/kernels/flashmla_sparse.py:436-437 | one chunk is re-based and nothing outside its slice changes |
| `PrefillWorkspace.FillRequestIds` | scripts/glm52-overlay/kernels/flashmla_sparse.py:396-405 | a token carries request r exactly when it lies in r's query range, and -1 when in none |
| `PrefillWorkspace.PrefixSums` | scripts/glm52-overlay/kernels/flashmla_sparse.py:407-413 | each start is the total length of the requests before it |
| `PrefillWorkspace.ChunkTilesWorkspace` | scripts/glm52-overlay/kernels/flashmla_sparse.py:430-440 | a chunk's intervals start at zero, stay inside the workspace and give every position exactly one owner |
| `PrefillWorkspace.OwnerIsUnique` | scripts/glm52-overlay/kernels/flashmla_sparse.py:407-413 | the intervals between prefix sums are disjoint and leave no gap |
| `PrefillWorkspace.TokensMatchChunks` | scripts/glm52-overlay/kernels/flashmla_sparse.py:441-443 | a token lies in a chunk's slice exactly when its request lies in the chunk, and the slices adjoin |
| `PrefillWorkspace.TokenHasChunk` | scripts/glm52-overlay/kernels/flashmla_sparse.py:429-443 | every prefill token is in some chunk's slice |
| `Updater.World.RunUpdate` | packages/agent/src/updater.ts:72-117 | whatever commands fail, the original survives at exactly one path and only it or a bundle of the requested version is installed; the swap begins only when everything before it succeeded; failed leaves the original installed unless both the install and the restore mv failed; rolled-back has it back; a failed rollback failed at its last command, and the number of its commands says whether the new bundle, nothing or the original is installed. Success means the last poll and no earlier one saw a marker at least as new as the return of the restart; when the restart went through, a rollback means that every poll saw none or an older one for 90 seconds |
| `Updater.SwapStands` | packages/agent/src/updater.ts:31-43 | for every failure pattern the disk after the swap is what the reported success or failure promises |
| `Updater.RollbackStands` | packages/agent/src/updater.ts:46-51 | for every failure pattern the disk after the rollback is what rolled-back or rollback-failed promises, and in the second case its last command failed |
| `Updater.World.Settle` | packages/agent/src/updater.ts:84-112 | after the swap: success only on a marker no older than the return of the restart, seen at the last poll and never before; otherwise, when the restart failed or 90 seconds brought only missing or older markers, rolled-back or rollback-failed with its conditions |
| `Updater.World.Attempt` | packages/agent/src/updater.ts:76-83 | up to the swap the original stays safe, and the swap is over exactly its three commands later when it went through |
| `Updater.SwapKeepsOriginal` | packages/agent/src/updater.ts:31-43 | for every failure pattern the original stays installed unless the swap went through or both the install and the restore failed |
| `Updater.RollbackKeepsOriginal` | packages/agent/src/updater.ts:46-51 | for every failure pattern the original survives, is reinstalled exactly when both moves succeed, and the node is without an agent exactly when only the second fails |
| `Updater.RollbackUndoesSwap` | packages/agent/src/updater.ts:31-51 | a completed rollback undoes a completed swap and keeps the bad bundle aside |
| `Updater.SwapWithoutCurrent` | packages/agent/src/updater.ts:32-33 | with no agent installed the swap loses the original exactly when its first command succeeds |
| `Updater.MoveLosesNothing` | packages/agent/src/updater.ts:31-51 | no mv, failed or not and onto whatever, loses or makes a directory: it is at a path or inside another one exactly when it was before |
| `Updater.StagingKeepsSafe` | packages/agent/src/updater.ts:78-82 | changes confined to the new directory cannot endanger the original |
| `Updater.World.AtomicSwap` | packages/agent/src/updater.ts:31-43 | the command sequence leaves the disk and outcome of the swap under the failures met |
| `Updater.World.AtomicRollback` | packages/agent/src/updater.ts:46-51 | the command sequence leaves the disk and outcome of the rollback under the failures met |
| `Updater.World.Extract` | packages/agent/src/updater.ts:78-79 | unpacking touches only the new directory, which on success is a fresh one |
| `Updater.World.MakeDirectory` | packages/agent/src/updater.ts:129 | mkdir leaves a fresh directory with nothing readable in it, or fails and changes nothing |
| `Updater.World.Stage` | packages/agent/src/updater.ts:78-82 | the swap is reached only with a bundle of the requested version, and the original still installed |
| `Updater.World.SwapIn` | packages/agent/src/updater.ts:83 | the swapped flag is set exactly where the success conditions hold; otherwise the original is installed unless install and restore both failed |
| `Updater.World.TakeBack` | packages/agent/src/updater.ts:95-101 | a rollback that reports success ran all its commands and has the original back; otherwise its last command failed and names the state |
| `Updater.World.Restart` | packages/agent/src/updater.ts:84 | the restart changes no directory, fails exactly when its command does, and the time of its return is the clock afterwards |
| `Updater.World.AwaitHealth` | packages/agent/src/updater.ts:85-93 | healthy means the last poll saw a marker with a time at or after the restart and every earlier one none or an older one; not healthy means that every poll did and 90 seconds are over; polls come 3 seconds or more apart and the last one began inside the window |
| `Updater.World.Run` | packages/agent/src/updater.ts:124-126 | a command succeeds or leaves the disk alone |
| `DeployCancel.StopLeavesNothing` | packages/agent/src/index.ts:853-935 | over every interleaving with one launch outstanding, after a last stop that does not preserve, nothing is tracked and no container is left unless a docker rm failed |
| `DeployCancel.StoppedRunLeavesNothing` | packages/agent/src/index.ts:853-935 | on the events alone: whatever came before a removing stop and whatever follows it short of another command, a quiet end has no record, and a container only if a docker rm failed after the stop |
| `DeployCancel.StepKeepsInv` | packages/agent/src/index.ts:1073-1179 | until a launch reaches its exit the cancel waits for it; afterwards a container exists only while a removal is still to come |
| `DeployCancel.RunKeepsInv` | packages/agent/src/runtime/dgxrun/dgxrun.ts:73-176 | that holds at the end of every disciplined run |
| `DeployCancel.RacedExitStops` | packages/agent/src/runtime/deploy-cancel.ts:78-88 | a raced launch goes into teardown with the latest deleteAfter, whatever its exit code, and reports no failure |
| `DeployCancel.RacedLaunchStops` | packages/agent/src/index.ts:899-926 | so it is at the end of every run with one launch outstanding |
| `DeployCancel.TeardownEnds` | packages/agent/src/index.ts:915-926 | the end of the teardown drops record and cancel and reports stopped with the flag read at the exit |
| `DeployCancel.TeardownRemoves` | packages/agent/src/index.ts:920 | the teardown's docker rm removes the container unless it fails |
| `DeployCancel.UncancelledExit` | packages/agent/src/runtime/deploy-cancel.ts:78-88 | without a cancel an exit with zero is silent and changes nothing but the launch, and any other exit or an abort reports one failure |
| `DeployCancel.ExitWithoutCancel` | packages/agent/src/index.ts:899-916 | over all runs, disciplined or not: when the last operation on the id is no cancel, an exit with zero adds no message, any other adds exactly one failure, and container and record stay |
| `DeployCancel.UndisturbedDeploy` | packages/agent/src/index.ts:853-935 | a deploy without a command beside it ends silent with its container up and recorded, or with exactly one failure |
| `DeployCancel.RefusedDeployReports` | packages/agent/src/runtime/dgxrun/dgxrun.ts:96-118 | a deploy refused for a missing mod reports one failure, forgets a pending cancel and touches nothing else |
| `DeployCancel.SuccessfulDeploy` | packages/agent/src/index.ts:853-916 | the silent end is reached from every quiet state |
| `DeployCancel.StopIsAnswered` | packages/agent/src/index.ts:1073-1179 | a stop is answered with its own flag, forgets the record, leaves its cancel, and removes the container unless it is to be kept or docker rm fails |
| `DeployCancel.NoFailureAfterStop` | packages/agent/src/runtime/deploy-cancel.ts:68-88 | from a state with a stop as last command, every continuation without a deploy adds only stopped messages |
| `DeployCancel.StopSilencesFailures` | packages/agent/src/runtime/deploy-cancel.ts:68-88 | so over all runs: between a stop and the next deploy no failure is ever reported |
| `DeployCancel.LaunchStoppedFlagIff` | packages/agent/src/index.ts:899-926 | over all runs and whatever arrives during the teardown, a raced launch sends one stopped; it carries the last stop's deleteAfter if and only if the stops during the teardown end on the flag read at the exit |
| `DeployCancel.TeardownKeepsFlag` | packages/agent/src/index.ts:911-922 | stops during the teardown change the last command but not the flag the teardown will send |
| `DeployCancel.StaleFlagIsSent` | packages/agent/src/index.ts:911-925 | a run with one launch whose last message carries an outdated flag |
| `DeployCancel.DeployIsSafeIff` | packages/agent/src/index.ts:853-935 | after any disciplined run, a deploy keeps every later disciplined continuation free of an orphaned container if and only if no launch is outstanding |
| `DeployCancel.DeployBesideLaunchOrphans` | packages/agent/src/index.ts:877-922 | beside one outstanding launch at any stage, with any open stops, some continuation of a deploy ends with an orphan |
| `DeployCancel.OverlappingLaunchOrphans` | packages/agent/src/index.ts:877-922 | in particular two deploys in a row can |
| `DeployCancel.PendingIffLastWasCancel` | packages/agent/src/runtime/deploy-cancel.ts:39-57 | a cancel is pending exactly when the last operation on that id was a cancel, and it is that one |
| `DeployCancel.CancelRegistry.constructor` | packages/agent/src/runtime/deploy-cancel.ts:42 | a new registry has seen no operation |
| `DeployCancel.CancelRegistry.BeginDeploy` | packages/agent/src/runtime/deploy-cancel.ts:44-46 | one begin is added to the history that the map replays |
| `DeployCancel.CancelRegistry.RequestCancel` | packages/agent/src/runtime/deploy-cancel.ts:47-49 | one cancel is added to the history that the map replays |
| `DeployCancel.CancelRegistry.PendingCancel` | packages/agent/src/runtime/deploy-cancel.ts:50-52 | there is a record exactly when the last operation on that id was a cancel, and then with its flag |
| `DeployCancel.CancelRegistry.DropCancel` | packages/agent/src/runtime/deploy-cancel.ts:53-55 | one forget is added to the history that the map replays |
| `DeployCancel.RunMirrorsRegistry` | packages/agent/src/index.ts:877-922 | in every run what a launch's exit sees is what the registry answers after the operations the handlers made |
| `BenchmarkJob.ExitedMeansFinal` | packages/agent/src/caps/job-cap.ts:160-170 | under any interleaving, failure or kill, a code from the exit file is the command line's own and neither it nor the result changes afterwards; zero means the command ran and succeeded |
| `BenchmarkJob.ExitFileIsTrueIff` | packages/agent/src/caps/job-cap.ts:127-140 | polls speak only of this job's command if and only if the directory held no readable exit file at the start |
| `BenchmarkJob.NoExitBeforeTheEnd` | packages/agent/src/caps/job-cap.ts:158-171 | from any start, while the script is at work a poll answers active or missing as systemd does, unknown whenever systemd could not be asked, and an exit only when systemd says so |
| `BenchmarkJob.StepKeepsInv` | packages/agent/src/jobs/job-spec.ts:43-54 | every script step keeps the captured code the command's, the partial file a prefix and a readable exit file final |
| `BenchmarkJob.RunKeepsInv` | packages/agent/src/jobs/job-spec.ts:43-54 | so does every run |
| `BenchmarkJob.UndisturbedRunIsReported` | packages/agent/src/jobs/job-spec.ts:43-54 | when no step fails the result is the copied file, in however many pieces it was written, and the poll reports the command's code, whatever was there before |
| `BenchmarkJob.UnbrokenRunIsReported` | packages/agent/src/jobs/job-spec.ts:43-54 | over every run without a kill or a failure that ends the script, however files were written and whether or not a result was found, the finished script's code is reported |
| `BenchmarkJob.RunWithoutResultIsReported` | packages/agent/src/jobs/job-spec.ts:48-52 | when nothing is found to copy the result stays what the command left, and the code is reported |
| `BenchmarkJob.FailedCopyLeavesResult` | packages/agent/src/jobs/job-spec.ts:50 | a copy that cannot start leaves the result alone |
| `BenchmarkJob.FailedDirectoryRunsNothing` | packages/agent/src/jobs/job-spec.ts:45 | when the directory cannot be entered nothing runs and no file is touched, whatever follows |
| `BenchmarkJob.CodeReadsBack` | packages/agent/src/caps/job-cap.ts:165-169 | a printed exit code survives trimming, the pattern and the conversion |
| `BenchmarkJob.CodeReadsThroughSpace` | packages/agent/src/caps/job-cap.ts:165-169 | blank space on either side and a minus sign in front are read |
| `BenchmarkJob.SpacePlainly` | packages/agent/src/caps/job-cap.ts:166 | the white space that trimming removes, by character codes |
| `BenchmarkJob.OtherTextIsNoCode` | packages/agent/src/caps/job-cap.ts:167 | a text with any other character is no code |
| `LogFollow.FollowerHoldsThePrefix` | packages/agent/src/caps/job-cap.ts:175-186 | over every interleaving of appends and polls the bytes held are the log up to the offset |
| `LogFollow.FollowFromTheStart` | packages/agent/src/caps/job-cap.ts:175-186 | started on any log, a poll with no append beside it catches up completely |
| `LogFollow.ShorterLogRestarts` | packages/agent/src/jobs/log-slice.ts:14-16 | a log shorter than the offset is read from byte zero and flagged, also for an offset that is no proper number |
| `LogFollow.ReplacedLogIsFollowedIff` | packages/agent/src/jobs/log-slice.ts:10-17 | after a replacement the next poll is right if and only if the log is shorter than the offset or repeats what is held |
| `LogFollow.MissingLogIsFollowedIff` | packages/agent/src/caps/job-cap.ts:180-181 | a missing log is never flagged, and the follower still holds the log, then and after the next one appears, if and only if it held nothing |
| `LogFollow.StepFollows` | packages/agent/src/caps/job-cap.ts:175-186 | a single append or poll keeps the follower at the log's prefix, and a poll reaches the measured end unflagged |
| `ShellWords.QuotedVectorReadsBack` | packages/agent/src/jobs/sh-quote.ts:9-11 | for every vector sh reads the joined quoted words back as exactly that vector |
| `ShellWords.QuotedVectorThenMore` | packages/agent/src/jobs/job-spec.ts:42 | whatever follows, no character of an argument acts as operator, expansion or separator |
| `ShellWords.CommandLineRunsTheVector` | packages/agent/src/jobs/job-spec.ts:47 | the wrapper's command line is the vector up to the redirection |
| `ShellWords.ChangeDirectoryLineEntersTheDirectory` | packages/agent/src/jobs/job-spec.ts:45 | the cd line names exactly the directory |
| `ShellWords.JoinIsInjective` | packages/agent/src/runtime/dgxrun/dgxrun-args.ts:128-130 | different vectors never quote to the same text |
| `ShellWords.TokenizeCommand` | packages/agent/src/runtime/dgxrun/dgxrun-args.ts:200-242 | the nested loops compute the tokens of the character-by-character definition, missing quotes included |
| `ShellWords.OrdinaryWordIsCut` | packages/agent/src/runtime/dgxrun/dgxrun-args.ts:229-235 | ordinary text is cut at blank, tab, newline and carriage return, and any of these before a word is skipped |
| `ShellWords.TokenizerUndoesQuoting` | packages/agent/src/runtime/dgxrun/dgxrun-args.ts:128-242 | tokenizing a quoted vector gives the vector back |
| `ShellWords.TokenizerAgreesIff` | packages/agent/src/runtime/dgxrun/dgxrun-args.ts:188-199 | on text that sh reads as words only, double quotes included, the tokenizer returns the same words if and only if no empty quoted word runs into a line continuation and ends, and no backslash in double quotes escapes a dollar sign or backquote |
| `ShellWords.TokensFollowReading` | packages/agent/src/runtime/dgxrun/dgxrun-args.ts:229-235 | without such a backslash it never returns more words than sh, and fewer exactly when it drops an empty one |
| `ShellWords.TokensKeepCharacters` | packages/agent/src/runtime/dgxrun/dgxrun-args.ts:217-228 | it never loses a character of a word that sh keeps, and has strictly more of them once it kept such a backslash |
| `ShellWords.ContinuedEmptyWordIsLost` | packages/agent/src/runtime/dgxrun/dgxrun-args.ts:229-235 | a text on which they differ in this way |
| `ShellWords.EscapedDollarKeepsBackslash` | packages/agent/src/runtime/dgxrun/dgxrun-args.ts:217-228 | a text on which they differ by the backslash |
| `RepoDirName.EncodeAfterDecode` | packages/agent/src/runtime/hf-cache.ts:39-52 | every slash-free directory name that parses to a kind is named again exactly as it was, and its id is encodable |
| `RepoDirName.DecodeAfterEncode` | packages/agent/src/runtime/hf-cache.ts:39-52 | parsing an encoded id gives it back if and only if its segments are non-empty, hold no double dash, and only the last ends in a dash |
| `RepoDirName.DirNameIsInjective` | packages/agent/src/runtime/hf-cache.ts:50-52 | on such ids no two repositories share a directory |
| `RepoDirName.DirNamePlainly` | packages/agent/src/runtime/hf-cache.ts:50-52 | the name in full: the kind in the plural, then the segments, joined by double dashes |
| `RepoDirName.DirNameIsOneComponent` | packages/agent/src/runtime/hf-cache.ts:68-74 | for every id the name is a single path component |
| `RepoDirName.SafeRepoIdIff` | packages/agent/src/runtime/hf-cache.ts:54-62 | the deletion check admits exactly one legal segment, or two around a single slash |
| `RepoDirName.SafeSegmentPlainly` | packages/agent/src/runtime/hf-cache.ts:54-62 | a legal segment by character codes, and neither one dot nor two |
| `RepoDirName.SafeIdsCanCollide` | packages/agent/src/runtime/hf-cache.ts:59-62 | two ids that pass the deletion check share one directory |
| `RepoDirName.PartsAreSeparable` | packages/agent/src/runtime/hf-cache.ts:40 | what a leftmost split returns never holds the separator, and only its last part ends in a dash |
| `RepoDirName.PartsOfSeparable` | packages/agent/src/runtime/hf-cache.ts:40-51 | and every such list is returned by splitting its join |
| `RepoDirName.NonKindParsesIff` | packages/agent/src/runtime/hf-cache.ts:33-46 | a directory name parses to something that is no kind if and only if it is a property name that every object inherits, the separator, and a rest without empty parts |
| `RepoDirName.InheritedPrefixParses` | packages/agent/src/runtime/hf-cache.ts:33-43 | a prefix that every object inherits parses although it is no kind |
| `RegistriesYaml.RegistriesReadBackIff` | packages/agent/src/registries.ts:23-37 | a reader of the emitted shape recovers the list, up to the default of visible, exactly when every string holds only characters a scalar may hold |
| `RegistriesYaml.DocumentReads` | packages/agent/src/registries.ts:23-37 | the text reads as one mapping per registry in order, each key once, and not at all otherwise |
| `RegistriesYaml.QuotedReadsBackIff` | packages/agent/src/registries.ts:17-19 | unescaping a quoted string gives it back and stops at its own closing quote, exactly when its characters are allowed |
| `RegistriesYaml.PrintablePlainly` | packages/agent/src/registries.ts:17-19 | the allowed characters by code: tab, newline, carriage return and all from the space up |
| `RegistriesYaml.EscapedCons` | packages/agent/src/registries.ts:18 | the four sequential replacements are one map per character |
| `RegistriesYaml.EscapedHasNoBreak` | packages/agent/src/registries.ts:18 | an escaped string stays on its line |
| `RegistriesYaml.RenderRegistriesYaml` | packages/agent/src/registries.ts:23-37 | the pushed lines joined with newlines are the document, empty list included |
| `RegistriesYaml.EntryIsRegistry` | packages/agent/src/registries.ts:27-35 | no field of a registry is lost or mistaken for another |

## Left out

- Floating point: rounding, bf16, fp8 and tf32 precision, overflow and infinities other than a masked score.
- Launch grids, strides, warps, stages and autotuning: one token and one head per program; head blocks act on each head alike.
- FP8 decoding, RoPE rotation and quantization scales: rows and keys are abstract dequantized values.
- The fp8_ds_mla accumulate kernels over global or paged slots: the same recurrence over differently addressed rows.
- Shape, dtype and dimension errors raised by the wrappers, and the environment switches.
- split_prefill_chunks, torch.topk and torch.gather: contracts only; for topk the contract is shown to be satisfiable.
- `exp` and `log`: parameters with their laws, never computed.
- The health tick, runtimes other than dgxrun, and progress messages such as starting or log lines.
- `preserveContainer` stops keep the container by intent and are not covered by the no-container statement.
- Mutual exclusion of updaters: the lock is not kept across a reconnect.
- Job exits that systemd reports itself, and garbage collection of its units: only codes taken from the exit file are covered.
- A command that writes the job's own exit or exit.tmp file: assumed not to.
- `BenchmarkJob` and `LogFollow` hold files as values of a state machine, because another process changes them between steps; the handlers' own reads are not modelled as heap accesses.
- UTF-8 decoding of log chunks: bytes only.
- BenchmarkJob.ReadCode: digits become an unbounded integer, where the original has a double.
- ShellWords.Read: covers sections 2.2.1 to 2.2.3 and 2.3 of the Shell Command Language and declines expansions, file name patterns and operators; NUL characters are treated like any other.
- RegistriesYaml.ReadScalar: declines hexadecimal escapes and folded lines of YAML 1.2.2; the printer never emits them.
- Directory scanning, deletion, file writes, HTTP, sockets and user interface.
