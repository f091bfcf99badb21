# Verification of the serving runtime

Dafny models of the parts of GGMLC that keep state between requests, with proofs of what they promise. `dafny verify
dfyconfig.toml` checks the whole project.

Functions on values say what an operation does to a state, and the properties are lemmas about them. Where the program
changes things in place, a class or a loop does it step by step and is proved to compute exactly what the functions
say, so the lemmas hold of it.

| files | what they model |
|---|---|
| `kv_padding`, `graph_cache`, `kv_decode` | KV-cached, bucketed execution: padded lengths, bucket keys and masks; the reuse, swap or rebuild decision of `prepare` with the ownership of contexts, allocators and buffers; incremental evaluation against one full causal pass; the driver's prefill and decode loops |
| `radix_model`, `radix_tree` | the paged radix tree: a dictionary from page paths to entries, and the linked nodes that implement it |
| `scheduler_model`, `scheduler`, `scheduler_runs`, `scheduler_prefix`, `scheduler_starvation`, `scheduler_padding` | continuous batching: the state machine, the class, and what holds over whole runs |
| `paged_kv` | reference-counted page mapping of KV slots |
| `tensor_graph` | reachability with a visited set, and zero-copy reshape |
| `json`, `json_text`, `json_roundtrip`, `json_grammar`, `questions` | the JSON printer and parser, the grammar the parser accepts, and the typed question codec on top |
| `gated_delta` | the gated delta rule over reals |
| `decide` | the retry and halving batch loop |
| `arith`, `bags`, `options` | shared arithmetic, multisets of dictionary contents, optional values |

The main results, each for all inputs:

- Chunked prefill and one-token decoding give the tokens of generation by a full pass per token, whatever the chunk
  size, the graphs reused, the sampler and what the cache held (`KvDecode.Generate`).
- After any `prepare` call the active graph is what a rebuild would give, and every handle has exactly one owner
  (`GraphCache.ModelExecutor.Prepare`).
- `match_prefix` finds the longest stored page prefix for any hash function (`RadixModel.MatchIsLongest`).
- Over any run of the scheduler ids, tokens, positions, reference counts and allocations stay exact, whatever the
  sampler returns (`SchedulerRuns.RunInv`, `SchedulerRuns.RunLogged`); which
  configurations drain every closed workload (`SchedulerStarvation.AlwaysDrainsIff`); why each request ends
  (`SchedulerRuns.WhyFinished`); prefix caching credits exactly the shared pages and serves each as computed for the
  first prompt that has it (`SchedulerPrefix.CreditIs`, `SchedulerPrefix.ServedBy`).
- The parser reads a text as a value exactly when a grammar written without it says so (`JsonGrammar.ParseIff`), and
  parsing undoes printing in every whitespace style (`JsonRoundTrip.RoundTripIff`, `Questions.QuestionsThroughText`).

What the proofs found the code does not do:

- `insert_prefix` looks children up by hash only. Its promise holds exactly when no stored page shares a hash with one
  of the prompt's without being it (`RadixModel.InsertStoresAllIff`), and a clash makes the tree serve pages computed
  behind another prefix (`RadixModel.ClashServesOther`). Every 64-bit hash has such clashes
  (`RadixModel.ClashReachable`).
- `pad_kv_len` grows with the sequence exactly when `GGMLC_KV_PAD` is at most 1 or a power of two
  (`KvPadding.PadMonotoneIff`). It covers the sequence for every pad.
- With graph buckets on, slots from 16 on are above every bucket. A step makes progress exactly when something can be
  admitted or the bucket reaches an occupied slot (`SchedulerRuns.StepProgressIff`), and with more than 16 slots some
  run leaves a request unserved for ever (`SchedulerStarvation.StarvationReachable`).
- The documentation (`docs/runtime/runtime_architecture.md:189-196`) says pages are allocated on demand;
  `paged_kv_ensure_tokens` maps the whole slot whatever number of tokens is asked for
  (`PagedKv.PagedKvCache.EnsureTokens`).
- Mapping existing pages over listed ones leaks counts and does not show the slot the shared pages
  (`PagedKv.PagedKvCache.MapExisting`). The scheduler gets there with two slots: a decode fills a free slot below an
  occupied one as padding, and the next admission maps its matched pages over that
  (`SchedulerPadding.AdmitsOverPaddingIff`, `PagedKv.PagedKvCache.PadThenAdmit`).
- `try_reshape_strided_view` does not look at the third stride; when that matters is stated exactly
  (`TensorGraph.ReshapeRightIff`). The VIEW lowering copies a view that is not contiguous before slicing it, but not a
  contiguous one, such as a reshaped tensor; every step-th row of that, reshaped, names the wrong bytes unless the steps
  cover all rows (`TensorGraph.SliceReshapeIff`, `TensorGraph.SliceReshapeExample`).
- The gated delta reference says gates may be per channel, and the kernel applies each channel's own; the reference uses
  channel 0 for all. When that gives the same memory is stated exactly (`GatedDelta.GateStepIff`,
  `GatedDelta.ChannelGatesIff`).
- The scheduler's destructor leaves padding slots allocated (`SchedulerRuns.CloseReleases`), which any scheduler of two
  slots can run into (`SchedulerPadding.CloseLeavesIff`).

## Model

| member | source | states |
|---|---|---|
| KvPadding.PadCovers | runtime/src/executor.cpp:58-64 | Whatever the pad, the padded KV length is in 1..max_ctx and covers every row in use that fits the context. |
| KvPadding.PadPow2 | runtime/src/executor.cpp:58-64 | For a power-of-two pad the padded length is the least multiple of it that covers, cut at the context. |
| KvPadding.PadMonotone | runtime/src/executor.cpp:58-64 | For a power-of-two pad the padded length never shrinks as the sequence grows. |
| KvPadding.PadShrinks | runtime/src/executor.cpp:58-64 | For every other pad above 1, which the environment can set (executor.cpp:501-502), some number of rows gets a longer view than a larger number does. |
| KvPadding.PadMonotoneIff | runtime/src/executor.cpp:58-64 | So the padded length never shrinks as the sequence grows exactly when the pad is at most 1 or a power of two. |
| KvPadding.BucketKeyInjective | runtime/src/executor.cpp:922-924 | Two (s, n_kv) pairs share a bucket key only if they are the same pair, for n_kv below 2^32. |
| KvPadding.MaskAt | runtime/src/executor.cpp:136-148 | Cell j of row i of the causal mask is open exactly when j <= pos + i. |
| KvPadding.FillCausalMask | runtime/src/executor.cpp:136-148 | The double loop fills the s_q rows of width s_kv with the causal mask, overwrites exactly that prefix of the buffer, and does nothing for empty sizes. |
| GraphCache.BalancedOver | runtime/src/executor.cpp:985-992 | A stashed graph under the same key has its own context and its own handles, so freeing it frees nothing of the live graph. |
| GraphCache.BalancedReplace | runtime/src/executor.cpp:985-992 | Stashing over an old entry whose graph was freed leaves every live handle with one owner. |
| GraphCache.KeyIs | runtime/src/executor.cpp:1123-1126 | The graph found under a bucket key has the s and the n_kv that were asked for. |
| GraphCache.ModelExecutor.FreeGraph | runtime/src/executor.cpp:926-951 | Frees allocator, buffer and context of one graph, each live and each once. |
| GraphCache.ModelExecutor.StashDecode | runtime/src/executor.cpp:985-1023 | Moves the live decode graph into the map under its padded length; every handle still has exactly one owner. |
| GraphCache.ModelExecutor.StashChunk | runtime/src/executor.cpp:1025-1064 | Moves the live chunk graph into the map under its (s, n_kv) key; every handle still has exactly one owner. |
| GraphCache.ModelExecutor.ClearForDecode | runtime/src/executor.cpp:1075-1090 | Before a swap-in the live graph is stashed, or freed if nothing remembers it; none is lost. |
| GraphCache.ModelExecutor.ClearForChunk | runtime/src/executor.cpp:1133-1148 | The same for swapping in a chunk graph. |
| GraphCache.ModelExecutor.ActivateDecode | runtime/src/executor.cpp:1066-1121 | Swaps in the stashed decode graph of this padded length if there is one; no handle is leaked or freed twice. |
| GraphCache.ModelExecutor.ActivateChunk | runtime/src/executor.cpp:1123-1179 | Swaps in the stashed chunk graph of this (s, n_kv) if there is one; no handle is leaked or freed twice. |
| GraphCache.ModelExecutor.SetDecodePos | runtime/src/executor.cpp:1181-1199 | A decode graph of the right padded length, moved to pos, shows what a fresh one for pos would show. |
| GraphCache.ModelExecutor.SetChunkPos | runtime/src/executor.cpp:1263-1284 | A chunk graph of the right (s, n_kv), moved to pos, shows what a fresh one for pos would show. |
| GraphCache.ModelExecutor.DropOtherChunks | runtime/src/executor.cpp:1617-1625 | After it only chunk graphs of the current number of rows are stashed; the others are freed once. |
| GraphCache.ModelExecutor.Build | runtime/src/executor.cpp:2832-2911 | A new graph owns its context and its allocator or buffer, writes rows pos..pos+s-1 and has the causal mask in the prefix its view reads. |
| GraphCache.ModelExecutor.Rebuild | runtime/src/executor.cpp:1602-1657 | Stashes the live graph, drops chunk graphs of other sizes, frees what is left and builds; ownership stays exact. |
| GraphCache.ModelExecutor.TryDecode | runtime/src/executor.cpp:1485-1538 | The decode fast paths: reuse in place or swap in; when one is taken the active graph is as good as rebuilt. |
| GraphCache.ModelExecutor.TryChunk | runtime/src/executor.cpp:1540-1596 | The chunk fast paths: reuse in place or swap in; when one is taken the active graph is as good as rebuilt. |
| GraphCache.ModelExecutor.Prepare | runtime/src/executor.cpp:1453-1672 | After any call, whatever was cached, the active graph has the kind, s, padded n_kv, row indices and mask a rebuild would give, and every handle has exactly one owner. |
| GraphCache.ModelExecutor.ReadyIs | runtime/src/executor.cpp:1453-1672 | What such a graph shows: s rows at pos..pos+s-1 and, in row i of its mask, cell j open exactly when j <= pos + i. |
| GraphCache.ModelExecutor.Close | runtime/src/executor.cpp:291-306 | Tearing down frees every handle exactly once. |
| KvDecode.Causal | runtime/src/executor.cpp:2132-2197 | In a full causal pass the hidden value of a position depends only on the tokens up to it, at every layer. |
| KvDecode.VisibleCausal | runtime/src/executor.cpp:136-148 | Under a causal mask row the visible rows are exactly those up to the query's position, so padding and stale rows never count. |
| KvDecode.MaskRow | runtime/src/executor.cpp:136-148 | Row i of the flat mask buffer, as a view of width n_kv reads it, is the causal row of position pos + i. |
| KvDecode.VisibleAre | runtime/src/executor.cpp:2186-2196 | What a query sees under its causal row is what the full pass attends to, whatever the cache holds past the rows in use. |
| KvDecode.SetRows | runtime/src/executor.cpp:2181-2182 | SET_ROWS writes the chunk's rows at its own positions of its own layer and nothing else. |
| KvDecode.Attend | runtime/src/executor.cpp:2186-2196 | A query's masked attention over the padded view gives the next layer's hidden value of the full pass. |
| KvDecode.RunLayer | runtime/src/executor.cpp:2132-2197 | One layer: from the full pass's hidden values to the full pass's next hidden values; the cache gains the chunk's rows and other layers keep theirs. |
| KvDecode.RunGraph | runtime/src/executor.cpp:2132-2197 | A run over a cache that holds the rows before pos, and anything after, gives each token the full pass's hidden value and leaves the cache holding its rows. |
| KvDecode.Forward | runtime/tools/ggmlc_run.cpp:712-725 | Prepare and run for rows pos..pos+s, whatever graph was reused, equal the full pass on those rows. |
| KvDecode.NextChunk | runtime/tools/ggmlc_run.cpp:669-680 | Every prefill chunk has at least one token and starts where the one before it ends, and the last one ends where the prompt ends. |
| KvDecode.Prefill | runtime/tools/ggmlc_run.cpp:664-725 | For every chunk size the chunked prefill ends with the full pass's hidden value of the last prompt token and a cache holding the whole prompt. |
| KvDecode.Generate | runtime/tools/ggmlc_run.cpp:664-861 | When prompt and new tokens fit the context, for every chunk size, sampler, stop rule and prior cache content: the prompt is kept, token i is the one sampled from a full pass over the tokens before it, no token but the last is the end token (when it is not negative) or special, and generation ends there or at the limit. |
| RadixModel.PageCount | runtime/src/radix_tree.cpp:37 | A prompt has as many full pages as the integer quotient of the lengths. |
| RadixModel.PageAt | runtime/src/radix_tree.cpp:41 | Page p is the window of tokens_per_page tokens at p * tokens_per_page. |
| RadixModel.PagesFit | runtime/src/radix_tree.cpp:63 | The matched tokens are pages times tokens_per_page, and no more than the prompt has. |
| RadixModel.PrefixOfEqual | runtime/src/radix_tree.cpp:40-64 | Two prompts have the same path of n pages exactly when their first n pages are equal. |
| RadixModel.MatchIsLongest | runtime/src/radix_tree.cpp:31-67 | A non-empty page prefix of the prompt is stored exactly when it is no longer than the match, for any hash function. |
| RadixModel.MatchIsFreshest | runtime/src/radix_tree.cpp:56-57 | After a match every matched entry's access time is above that of every entry not matched, and deeper ones are above shallower ones. |
| RadixModel.MatchFromKeeps | runtime/src/radix_tree.cpp:56-57 | Matching changes access times only, and they stay distinct. |
| RadixModel.InsertKeeps | runtime/src/radix_tree.cpp:69-122 | Insertion keeps the tree prefix-closed with one child per hash; old entries keep handles and counts, new ones start unreferenced. |
| RadixModel.InsertExact | runtime/src/radix_tree.cpp:93-121 | If no stored page clashes with the prompt's, insertion adds exactly the missing prefixes with their own handles and the first-inserted handles win. |
| RadixModel.InsertSome | runtime/src/radix_tree.cpp:93-121 | The same when fewer or more handles than missing pages are given: as many pages as have both are added. |
| RadixModel.InsertRefused | runtime/src/radix_tree.cpp:69-91 | Nothing is inserted without handles, with unequal lists, with a start beyond the prompt, or with no stored path of the same hashes up to the start. |
| RadixModel.InsertStoresAllIff | runtime/src/radix_tree.cpp:104-107 | All page prefixes of the prompt are stored afterwards exactly when no stored page shares a hash with one of the prompt's without being it; children are not compared by tokens here. |
| RadixModel.ClashServesOther | runtime/src/radix_tree.cpp:104-107 | For any hash and any two pages c1, c2 it does not tell apart: with c1 stored, inserting c2, c3 files c3 below c1, and a prompt of c1, c3 matches two pages, the second with handles computed behind c2. |
| RadixModel.HashCollides | runtime/src/radix_tree.cpp:7-22 | However it is computed, a 64-bit hash sends two different pages of three or more 32-bit tokens to the same value. |
| RadixModel.ClashReachable | runtime/src/radix_tree.cpp:69-122 | So under any 64-bit hash two insertions into an empty tree get it to serve a prompt handles computed behind another page. |
| RadixModel.RetainAllCounts | runtime/src/batch_scheduler.cpp:155-157 | Retaining a list of nodes adds to each count how often the node is listed and changes no handle. |
| RadixModel.ReleaseAllCounts | runtime/src/batch_scheduler.cpp:267-270 | Releasing a list of held nodes takes off each count how often the node is listed. |
| RadixModel.VictimUnique | runtime/src/radix_tree.cpp:162-168 | The oldest evictable leaf is unique, so a round does not depend on the order of iteration or sorting. |
| RadixModel.EvictOldest | runtime/src/radix_tree.cpp:152-185 | A round removes one unreferenced leaf that no unreferenced leaf is older than, and nothing else; without one it changes nothing. |
| RadixModel.EvictSafe | runtime/src/radix_tree.cpp:152-185 | Under any budget eviction only removes entries, never a retained node or an ancestor of one. |
| RadixModel.EvictAll | runtime/src/radix_tree.cpp:152-185 | With enough budget exactly the retained nodes and their ancestors stay. |
| RadixModel.EvictConserves | runtime/src/radix_tree.cpp:168-181 | The handles in the tree before equal, as a multiset, those in the tree after plus those returned. |
| RadixTree.PagedRadixTree.constructor | runtime/src/radix_tree.cpp:24-27 | A new tree holds the root only; a page size of 0 becomes 1024. |
| RadixTree.PagedRadixTree.MatchPrefix | runtime/src/radix_tree.cpp:31-67 | Walking the linked nodes by hash and token check finds the longest stored prefix and lists its nodes and handles in order; afterwards their access times are above those of all other nodes. |
| RadixTree.PagedRadixTree.WalkPrefix | runtime/src/radix_tree.cpp:79-91 | The descent to start_page by hash alone, or giving up where a page is missing. |
| RadixTree.PagedRadixTree.AttachPage | runtime/src/radix_tree.cpp:101-120 | One step of insertion: reuse the child under the hash, whatever its tokens, or link a new node. |
| RadixTree.PagedRadixTree.InsertPrefix | runtime/src/radix_tree.cpp:69-122 | The stored contents become what the insertion on values says; nodes already linked stay linked. |
| RadixTree.PagedRadixTree.RetainNode | runtime/src/radix_tree.cpp:124-129 | One more reference and a new access time on that node, nothing else; on a node no longer linked only the clock moves in the tree; null does nothing. |
| RadixTree.PagedRadixTree.ReleaseNode | runtime/src/radix_tree.cpp:131-135 | One reference less, never below zero, nothing else; the tree does not change for a node no longer linked or null. |
| RadixTree.PagedRadixTree.CollectEvictionCandidates | runtime/src/radix_tree.cpp:137-150 | Lists exactly the unreferenced leaves below the node. |
| RadixTree.PagedRadixTree.Oldest | runtime/src/radix_tree.cpp:162-168 | The target is a candidate with the least access time. |
| RadixTree.PagedRadixTree.UnlinkLeaf | runtime/src/radix_tree.cpp:176-180 | Erasing the leaf from its parent removes exactly that path. |
| RadixTree.PagedRadixTree.EvictLru | runtime/src/radix_tree.cpp:152-185 | The contents after and the handles returned are those of evicting the oldest evictable leaf round by round. |
| RadixTree.PagedRadixTree.CountNodes | runtime/src/radix_tree.cpp:196-203 | The recursion counts every node of the subtree once. |
| RadixTree.PagedRadixTree.TotalNodes | runtime/src/radix_tree.cpp:209-211 | One more than the number of stored prefixes. |
| SchedulerModel.InitInv | runtime/src/batch_scheduler.cpp:9-18 | A new scheduler satisfies the invariant. |
| SchedulerModel.AddKeeps | runtime/src/batch_scheduler.cpp:35-48 | A new request joins the end of the queue under the next id and breaks nothing. |
| SchedulerModel.PrefillKeeps | runtime/src/batch_scheduler.cpp:136-238 | Admitting the head of the queue puts it in the first free slot and keeps ids, counts, held nodes and allocations exact. |
| SchedulerModel.MatchRefs | runtime/src/batch_scheduler.cpp:149-157 | After matching and retaining, each node's count is again the number of requests holding it. |
| SchedulerModel.EmitToken | runtime/src/batch_scheduler.cpp:256-265 | A sampled token extends the request by one and completes it exactly on its end token or its quota. |
| SchedulerModel.EmitKeeps | runtime/src/batch_scheduler.cpp:256-274 | Sampling a token for a slot keeps the invariant whether or not it completes the request. |
| SchedulerModel.StepKeeps | runtime/src/batch_scheduler.cpp:130-403 | Every step keeps: each id in exactly one of queue, slot, finished; queue in id order; tokens as sampled; position prompt + generated - 1; counts equal to holders; no slot allocated when nothing is active. |
| SchedulerModel.EvictKeeps | runtime/src/radix_tree.cpp:152-185 | An eviction between steps, under any budget, leaves every node an active request holds in the tree. |
| SchedulerRuns.RunInv | runtime/src/batch_scheduler.cpp:130-403 | Every state reachable by arrivals, steps, evictions and switches satisfies the invariant, whatever the sampler returns. |
| SchedulerRuns.StepGain | runtime/src/batch_scheduler.cpp:255-265 | A step reports exactly the tokens appended and the requests completed by it. |
| SchedulerRuns.RunLogged | runtime/src/batch_scheduler.cpp:256-265 | Over a run the tokens reported for an id are its generated tokens in order, and it is reported complete once if it finished and never otherwise. |
| SchedulerRuns.StepProgressIff | runtime/src/batch_scheduler.cpp:130-403 | A step decreases the tokens still owed exactly when something can be admitted or the decode bucket reaches an occupied slot; otherwise it changes no request, slot or queue. |
| SchedulerRuns.BucketCoversIff | runtime/src/batch_scheduler.cpp:83-92 | The bucket reaches every occupied slot exactly when buckets are off or no slot from 16 on is occupied. |
| SchedulerRuns.WorkCanProgress | runtime/src/batch_scheduler.cpp:83-92 | With at least one slot, and buckets off or at most 16 slots, a step with work makes progress. |
| SchedulerRuns.Drains | runtime/src/batch_scheduler.cpp:130-403 | Then any sampler drains a closed workload within as many steps as tokens may still come. |
| SchedulerRuns.StarvesForever | runtime/src/batch_scheduler.cpp:287-293 | With buckets on, requests only in slots from 16 on are never served again. |
| SchedulerRuns.NonAdmittingStep | runtime/src/batch_scheduler.cpp:360-371 | A step that admits nothing reports exactly the next token of each slot below the bucket, in slot order. |
| SchedulerRuns.GeneratedIsCut | runtime/src/batch_scheduler.cpp:256-265 | What an admitted request has generated is the first of the tokens sampled for it, and it has finished exactly when it has all of them up to the first end token or its quota, for the reason that comes first. |
| SchedulerRuns.WhyFinished | runtime/src/batch_scheduler.cpp:256-274 | Every admitted request of a reachable state: no token before the last equals its end token; it stopped exactly when the last does, ran out exactly when it has its quota and the last does not, and runs otherwise. |
| SchedulerRuns.EachIdOnce | runtime/src/batch_scheduler.cpp:130-403 | Each id submitted in a reachable state is in one place: once in the queue, without tokens; in one slot, running; or in neither, finished. |
| SchedulerRuns.RunRequests | runtime/src/batch_scheduler.cpp:35-48 | Request i of a reachable state has the prompt, quota and end token of the i-th arrival, with the default end token if none was given. |
| SchedulerRuns.HeldIsMatched | runtime/src/batch_scheduler.cpp:148-165 | In every reachable state a running request holds exactly the nodes of the pages it was credited with, all stored; a queued or finished one holds none. |
| SchedulerRuns.AdmittingStep | runtime/src/batch_scheduler.cpp:133-277 | A step with a queue and a free slot admits from its head until the queue is empty or the slots are full; each admitted request gets its first token, others are untouched. |
| SchedulerRuns.NonAdmittingServes | runtime/src/batch_scheduler.cpp:287-393 | Any other step appends its next sampled token to a request in a slot, unless buckets are on and the slot is 16 or above; then nothing. |
| SchedulerRuns.RefsAreHolders | runtime/src/radix_tree.cpp:124-135 | In every state of the invariant a node's count is the number of running requests that hold it. |
| SchedulerRuns.IdleTreeEvictable | runtime/src/radix_tree.cpp:152-185 | Once nothing is active all counts are zero, and eviction with enough budget empties the tree. |
| SchedulerRuns.CloseReleases | runtime/src/batch_scheduler.cpp:20-33 | The destructor leaves no node retained; the executor keeps exactly the slots that were only padding. |
| SchedulerStarvation.StarvationReachable | runtime/src/batch_scheduler.cpp:83-92 | With buckets on and any number of slots above 16, whatever the sampler, a run of seventeen short requests leaves the last one unfinished however long it goes on. |
| SchedulerStarvation.AlwaysDrainsIff | runtime/src/batch_scheduler.cpp:83-92 | Whatever the sampler, every closed workload drains exactly when there is a slot and buckets are off or there are at most 16 slots. |
| SchedulerPadding.AdmitsOverPaddingIff | runtime/src/batch_scheduler.cpp:133-168 | Whatever the sampler and the hash, a run in which a decode has filled a free slot and the next admission maps matched pages over it exists exactly when there are two slots. |
| SchedulerPadding.CloseLeavesIff | runtime/src/batch_scheduler.cpp:20-33 | A run after which the destructor leaves a slot allocated exists exactly when there are two slots. |
| SchedulerPrefix.MatchIsShared | runtime/src/batch_scheduler.cpp:149-153 | When the tree holds the earlier prompts' prefixes, the match is the longest page prefix shared with one of them. |
| SchedulerPrefix.RegisterExact | runtime/src/batch_scheduler.cpp:224-238 | Registering the pages past the match makes the tree hold exactly one more prompt's prefixes. |
| SchedulerPrefix.PrefillTotals | runtime/src/batch_scheduler.cpp:160-164 | Hits and saved tokens grow by exactly what this request matched. |
| SchedulerPrefix.RunPrefix | runtime/src/batch_scheduler.cpp:148-238 | Over any run without eviction or collisions the tree holds exactly the page prefixes of the admitted prompts, each page as computed for the first prompt that has it, each request is credited with the tokens of the longest page prefix it shares with an earlier prompt, and the totals are the sums. |
| SchedulerPrefix.CreditIs | runtime/src/batch_scheduler.cpp:149-164 | The credit of an admitted request, in tokens: the most whole pages its prompt begins with that an earlier prompt begins with too. |
| SchedulerPrefix.ServedBy | runtime/src/batch_scheduler.cpp:148-238 | Each page of an admitted prompt is stored under its tokens, with the handles computed for the first prompt that begins with the same pages. |
| SchedulerPrefix.HitsAre | runtime/src/batch_scheduler.cpp:160-164 | The hits are as many as the requests credited with something. |
| Scheduler.ContinuousBatchScheduler.constructor | runtime/src/batch_scheduler.cpp:9-18 | Empty queue, free slots, caching on, buckets off. |
| Scheduler.ContinuousBatchScheduler.AddRequest | runtime/src/batch_scheduler.cpp:35-48 | Returns the next id and queues the request, with the default end token if none is given. |
| Scheduler.ContinuousBatchScheduler.HasWork | runtime/src/batch_scheduler.cpp:50-56 | True exactly when something is queued or active. |
| Scheduler.ContinuousBatchScheduler.ActiveCount | runtime/src/batch_scheduler.cpp:58-64 | The number of occupied slots. |
| Scheduler.ContinuousBatchScheduler.FindAvailableSlot | runtime/src/batch_scheduler.cpp:76-81 | The first free slot, or -1. |
| Scheduler.ContinuousBatchScheduler.SelectBatchBucket | runtime/src/batch_scheduler.cpp:83-92 | With buckets on, for a slot below 16, the least of 1, 2, 4, 8, 16 above it, else 16; one past the slot when buckets are off. |
| Scheduler.ContinuousBatchScheduler.ReleaseMatched | runtime/src/batch_scheduler.cpp:266-271 | Every node the request holds loses one reference and the request holds none. |
| Scheduler.ContinuousBatchScheduler.PushToken | runtime/src/batch_scheduler.cpp:252-274 | Appends the sampled token and, when done, records why, releases the nodes and frees the slot. |
| Scheduler.ContinuousBatchScheduler.MatchPrompt | runtime/src/batch_scheduler.cpp:148-165 | Matches the prompt, retains what matched, credits the request and the totals. |
| Scheduler.ContinuousBatchScheduler.Register | runtime/src/batch_scheduler.cpp:224-238 | Files the handles of the pages beyond the match under the prompt. |
| Scheduler.ContinuousBatchScheduler.AdmitHead | runtime/src/batch_scheduler.cpp:137-276 | One admission, from the head of the queue to its first token. |
| Scheduler.ContinuousBatchScheduler.Admit | runtime/src/batch_scheduler.cpp:133-277 | Admissions until the queue is empty or no slot is free. |
| Scheduler.ContinuousBatchScheduler.Decode | runtime/src/batch_scheduler.cpp:360-392 | One token for every occupied slot of the bucket. |
| Scheduler.ContinuousBatchScheduler.Step | runtime/src/batch_scheduler.cpp:130-403 | The loops of a step take the state and report what the state machine says, and keep its invariant. |
| Scheduler.ContinuousBatchScheduler.Close | runtime/src/batch_scheduler.cpp:20-33 | Releases what active requests hold and frees their slots; no node stays retained. |
| Scheduler.ContinuousBatchScheduler.EvictPages | runtime/src/radix_tree.cpp:152-185 | Eviction by the owner of the tree keeps the scheduler valid. |
| PagedKv.PagesApart | runtime/src/executor.cpp:704-714 | The memory of two different pages, of any slots, ops and kinds, does not overlap. |
| PagedKv.SlotsApart | runtime/src/executor.cpp:824-825 | The windows of two slots do not overlap. |
| PagedKv.MappedPush | runtime/src/executor.cpp:832-838 | A page mapped at the end of a list goes to a free address, its own offset in the slot's window. |
| PagedKv.KeyedOver | runtime/src/executor.cpp:881-889 | The address of a listed page is taken, so replacing the page in the list leaves the table as it was. |
| PagedKv.CountedOver | runtime/src/executor.cpp:887-889 | Overwriting a list entry without releasing it leaves one count that no list accounts for. |
| PagedKv.PagedKvCache.Alloc | runtime/src/executor.cpp:738-743 | Marks the slot active and changes no page. |
| PagedKv.PagedKvCache.EnsureTokens | runtime/src/executor.cpp:812-841 | Fills every window of the slot whatever number of tokens is asked for, page i of a list at va + slot * pages * page_size + i * page_size; pages it had stay, other slots are untouched, table and counts stay exact. |
| PagedKv.PagedKvCache.FreeList | runtime/src/executor.cpp:780-787 | Unmaps and releases each page of the list once. |
| PagedKv.PagedKvCache.FreeSlot | runtime/src/executor.cpp:767-803 | Afterwards the slot has no page and every count it held is given back. |
| PagedKv.PagedKvCache.FreeAll | runtime/src/executor.cpp:602-607 | After any run, leaking ones included, freeing all slots leaves no mapping and restores the counts from before, plus whatever leaked. |
| PagedKv.PagedKvCache.MapExisting | runtime/src/executor.cpp:853-897 | For live pages named for every op: the lists take the handles at start.., keep the rest, and the table keeps every page it had. When the slot's lists end at start, page i of a list is at va + slot * pages * page_size + i * page_size and counts agree; where a list already had a page its count leaks and its address keeps it, so the slot does not see the page the list names. |
| PagedKv.PagedKvCache.ExtractHandles | runtime/src/executor.cpp:899-920 | The handles at one page index for the ops that have it, all live. |
| PagedKv.PagedKvCache.PadSlot | runtime/src/batch_scheduler.cpp:306-311 | A decode step allocates and fills every slot of its bucket, free ones too, and leaks nothing. |
| PagedKv.PagedKvCache.AdmitSlot | runtime/src/batch_scheduler.cpp:146-168 | An admission leaks counts exactly when it has matched pages and the slot's lists are not empty. |
| PagedKv.PagedKvCache.PadThenAdmit | runtime/src/batch_scheduler.cpp:146-168 | Admitting with matched pages to a slot filled as padding leaks: after all slots are freed the counts are above those from before. |
| TensorGraph.DerivedFromRoots | runtime/src/executor.cpp:167-181 | The search with a shared visited set ends on any finite graph and answers whether a root can be reached around the tensors already visited. |
| TensorGraph.ReachesIff | runtime/src/executor.cpp:167-181 | With an empty visited set that is whether a chain of view_src and view-like src[0] edges leads to a root. |
| TensorGraph.LinearInjective | runtime/src/executor.cpp:75-113 | A row-major position names one index. |
| TensorGraph.ReshapeRightIff | runtime/src/executor.cpp:75-113 | The zero-copy view names the same bytes as the slice exactly when it is empty, has at most one plane, or its planes follow one another; the third stride is not checked. |
| TensorGraph.PackedSliceReshape | runtime/src/executor.cpp:2448-2464 | For a dim-0 slice of a contiguous packed parent the view is always right. |
| TensorGraph.ReshapeSucceedsIff | runtime/src/executor.cpp:75-113 | For a proper row slice of a contiguous parent it applies exactly when the row splits in two and the other dimensions follow, the last being one. |
| TensorGraph.SliceAddress | runtime/src/executor.cpp:2511-2535 | Element i of a lowered slice is element i of the source with the sliced coordinate multiplied by the step. |
| TensorGraph.SliceReshapeIff | runtime/src/executor.cpp:2511-2535 | The slices of a packed source that the VIEW lowering makes are reshaped without copying along the first two dimensions only; right along the first, and along the second exactly when the slice is empty, has at most one plane, or its steps cover the whole extent. |
| TensorGraph.SliceReshapeExample | runtime/src/executor.cpp:2511-2535 | Every second of five rows of a reshaped tensor, reshaped again: the result names the wrong bytes. |
| GatedDelta.ReadStep | python/ggmlc/ops.py:45-53 | What one step does to a reading at any vector. |
| GatedDelta.StepIs | python/ggmlc/ops.py:45-53 | A step cell by cell: the memory fades by exp of the gate, and the key writes beta times what v asks for beyond what the faded memory returns at the key. |
| GatedDelta.ReadAtUnitKey | python/ggmlc/ops.py:45-53 | For a unit key the reading after its step is (1 - beta) times the decayed old reading plus beta times v. |
| GatedDelta.ReadEarlierKey | python/ggmlc/ops.py:44-54 | With orthonormal keys, the reading at any earlier key after any number of steps, for all gates, betas and initial memory. |
| GatedDelta.Recall | python/ggmlc/ops.py:44-54 | With zero gates, beta one and orthonormal keys every earlier key still returns its value. |
| GatedDelta.GatedDeltaNet | python/ggmlc/ops.py:41-55 | The loop's outputs are the scaled readings of the memory at the queries. |
| GatedDelta.GateStepIff | python/ggmlc/ops.py:45-53 | For any keys, values and betas, one step with the gate of channel 0 gives what the kernel's per-channel gates (third_party/ggml/src/ggml-cpu/ops.cpp:10916-10938) give, on every memory, exactly when all channels fade alike, or a single one does not and the step replaces its row. |
| GatedDelta.ChannelGatesIff | python/ggmlc/ops.py:45-53 | Over whole runs, whatever the other inputs, the loop gives what per-channel gates give exactly when all channels fade like channel 0. |
| Json.SetGet | examples/laya/include/json_util.h:77-86 | After set the key maps to the new value, other keys map where they did and existing keys keep their places. |
| JsonText.JsonEscape | examples/laya/include/json_util.h:89-110 | The loop's output is the escaped text that JsonRoundTrip.CharsRead shows to parse back byte for byte. |
| JsonText.EscapeOf | examples/laya/include/json_util.h:89-110 | The escape of each byte: two letters for five of them, \u00 and two lower-case hex digits for other bytes below 32, itself for the rest. |
| JsonText.JsonDumps | examples/laya/include/json_util.h:112-156 | The loops print the value in the compact style, the text JsonRoundTrip.RoundTripIff is about. |
| JsonText.CompactLayout | examples/laya/include/json_util.h:112-156 | The compact text: items or quoted keys and values between brackets, a comma and a space between them; null also for what is not finite. |
| JsonText.JsonDumpsPretty | examples/laya/include/json_util.h:309-339 | The loops print the value in the indented style, for any starting indent, the text JsonRoundTrip.RoundTripIff is about. |
| JsonText.PrettyLayout | examples/laya/include/json_util.h:309-339 | The indented text: each item on its own line two spaces further in, the closing bracket on a line at the outer indent, empty brackets for no items. |
| JsonText.SetField | examples/laya/include/json_util.h:77-86 | Replaces the first field with the key or appends one. |
| JsonText.JsonParser.StrLit | examples/laya/include/json_util.h:214-261 | The literal's bytes, or the failure and where it is. |
| JsonText.JsonParser.Escape | examples/laya/include/json_util.h:220-255 | One escape's bytes, or the failure and where it is. |
| JsonText.JsonParser.Number | examples/laya/include/json_util.h:263-277 | The longest number token at the cursor and its value. |
| JsonText.JsonParser.Items | examples/laya/include/json_util.h:284-289 | The items up to the closing bracket, or the failure and where it is. |
| JsonText.JsonParser.FieldList | examples/laya/include/json_util.h:297-305 | The fields up to the closing brace, in order, repeated keys included. |
| JsonText.JsonParser.Value | examples/laya/include/json_util.h:193-205 | The value at the cursor and where it ends, or the failure and where it is. |
| JsonText.JsonParser.ParseTop | examples/laya/include/json_util.h:162-167 | One value between whitespace; what follows is not looked at. |
| JsonRoundTrip.CharsRead | examples/laya/include/json_util.h:89-110 | Parsing an escaped string gives back every byte of it. |
| JsonRoundTrip.NumberMeans | examples/laya/include/json_util.h:263-277 | The value x parsed from any number text, whole and fraction w and f, exponent e: x * 10^|f| is the digits of w and f joined, times 10 to the signed e. |
| JsonRoundTrip.IntTextRead | examples/laya/include/json_util.h:126-128 | The text of an integer is one number token and reads back as the integer. |
| JsonRoundTrip.NatTextPlaces | examples/laya/include/json_util.h:126-128 | Digit k from the right of a printed integer is the k-th decimal digit; there is no leading zero. |
| JsonRoundTrip.PrintParse | examples/laya/include/json_util.h:193-205 | At any place of any text, a value printed in any whitespace style parses back to itself up to how its numbers print. |
| JsonRoundTrip.RoundTrip | examples/laya/include/json_util.h:158-171 | The same for a whole text, whatever follows that cannot continue a number. |
| JsonRoundTrip.RoundTripIff | examples/laya/include/json_util.h:112-339 | Parsing json_dumps or json_dumps_pretty gives the value back exactly when all its numbers are finite and read back as themselves. |
| JsonRoundTrip.IntegersExact | examples/laya/include/json_util.h:126-128 | Values whose numbers are integers below 1e15 in magnitude always do. |
| JsonGrammar.ValueSound | examples/laya/include/json_util.h:193-305 | What the parser accepts at a place, after whitespace, is a text of the value by a grammar written without the parser. |
| JsonGrammar.Complete | examples/laya/include/json_util.h:193-305 | Wherever a text of a value stands, followed by whitespace, a comma, a closing bracket or the end, the parser reads it as that value and stops behind it. |
| JsonGrammar.ParseIff | examples/laya/include/json_util.h:162-305 | Parsing a whole text gives a value exactly when the text is one of that value by the grammar, whitespace around it allowed. |
| Questions.QuestionToJson | examples/laya/src/questions.cpp:125-144 | The object written for one question: type "choice", "score" or "noul", instructions, and criteria as a list, a dictionary with null for missing descriptions, or nothing. |
| Questions.QuestionsToJson | examples/laya/src/questions.cpp:123-148 | The loop writes one object keyed by question id, in order when ids are distinct; a repeated id replaces the earlier one. |
| Questions.QuestionFromJson | examples/laya/src/questions.cpp:47-80 | Score exactly when the first type field is "score", noul when it is "noul", choice otherwise; instructions and criteria from the first fields of that name, with the defaults for what is absent. |
| Questions.QuestionsFromJson | examples/laya/src/questions.cpp:82-90 | The questions of all fields that hold objects, in order. |
| Questions.QuestionsAt | examples/laya/src/questions.cpp:82-90 | They are the questions of the fields that hold objects, each once and in the order of the fields. |
| Questions.TypeBack | examples/laya/include/questions.h:12-25 | Reading a type's name gives the type back. |
| Questions.SetAllIff | examples/laya/include/json_util.h:77-86 | Setting fields one after another keeps them all, in order, exactly when no key repeats. |
| Questions.QuestionBack | examples/laya/src/questions.cpp:47-80 | One question comes back exactly when its labels are distinct (choice, noul) or are the indices (score). |
| Questions.QuestionsBackIff | examples/laya/src/questions.cpp:82-148 | A list comes back exactly when its ids are distinct and each question does. |
| Questions.QuestionsThroughText | examples/laya/src/questions.cpp:47-148 | The same through printing in any whitespace style and parsing. |
| Decide.CapBounds | examples/laya/src/engine.cpp:134-143 | The cap is at least one and at most max_batch; above one its rows stay within 8192 tokens, and below max_batch one row more would not. |
| Decide.ClampIs | examples/laya/src/engine.cpp:128-132 | A length is raised to min_seq, then cut to max_length. |
| Decide.FewForwards | examples/laya/src/engine.cpp:386 | There are at most as many successful forwards as questions. |
| Decide.AnsweredOnce | examples/laya/src/engine.cpp:374-385 | Every answered question was answered by exactly one successful forward. |
| Decide.AnsweredFromOwnRow | examples/laya/src/engine.cpp:332-400 | In any sound log each answer is decoded from the question's own row of the only successful forward that covers it, every batch is within the cap, and the count returned is that of the successful forwards. |
| Decide.EncodeAll | examples/laya/src/engine.cpp:313-334 | Encodes all questions, or stops at the first with more options than the model has. |
| Decide.TryForwards | examples/laya/src/engine.cpp:361-398 | One chunk: halving on failure until a forward succeeds, or a single row fails. |
| Decide.Run | examples/laya/src/engine.cpp:300-400 | Whichever forwards fail, it ends; if it answers, each answer is from the question's own row of one successful forward within the cap; if not, a question has too many options or a single-row forward failed; without failures it takes as few forwards as the cap allows. |
| Decide.IndependentOfFailures | examples/laya/src/engine.cpp:372-385 | If rows do not influence one another, the answers do not depend on which forwards fail. |

## Left out

- KvDecode.Generate: one sequence (batch 1, slot 0); logits, sampling and the vocabulary projection are one arbitrary function of the last hidden value and the count so far.
- KvDecode.RunGraph: a layer is an arbitrary function of a query, its position and the visible rows; masked rows are idealised as contributing nothing, where the code adds the most negative half-precision number.
- GraphCache.ModelExecutor.Prepare: only s and pos vary, the KV cache is on and not paged, the pad is above 1, and the `GGMLC_DISABLE_*` variables are unset; so the view-and-copy path, other symbols and the branch that clears all buckets are not modelled. A graph is a value that moves between the slot and the maps; RoPE constants and position inputs are rewritten for pos like the row indices and are not modelled separately.
- KvPadding.BucketKeyInjective: does not model the overflow of `s << 32` for s from 2^31 on.
- `GGML_PAD`, tensor allocation and kernels belong to ggml, which is not part of this model; the macro is taken as (x + n - 1) & ~(n - 1).
- RadixModel.MatchIsLongest and the rest of the tree: the 64-bit FNV-1a hash is an arbitrary function; the clock and the counts do not overflow; handle dictionaries are lists of pairs in iteration order; `reset` and the separate page count are not modelled.
- RadixTree.PagedRadixTree.UnlinkLeaf: a parent is an ordinary reference where the program holds a weak one.
- Scheduler.ContinuousBatchScheduler.Step: requests are kept by id instead of through shared pointers; the executor's part is an arbitrary sampler and arbitrary page handles, so the decode inputs, the common position of a mixed-length batch, executor exceptions and empty prompts are not modelled. Nothing is claimed about how the tokens of a request depend on its neighbours.
- SchedulerRuns.Drains: counts steps, not time.
- SchedulerPadding.AdmitsOverPaddingIff: the scheduler's state and the page cache are two models; that an allocated slot has its pages listed is what PagedKv.PagedKvCache.PadSlot says of the decode step.
- SchedulerPrefix.RunPrefix: assumes that the pages in play do not collide and that nothing is evicted, since without that it is not what the code gives.
- Pages behind tree nodes: `insert_prefix` takes no reference on them, so nothing is claimed about their being live when matched.
- PagedKv.PagedKvCache.Alloc: no prefix hash is given; the shared-prefix pages of the page manager are not modelled.
- PagedKv.PagedKvCache.MapExisting: handles must be live and named for every op; the page manager ignores a retain of a page it no longer knows.
- PagedKv.PagedKvCache.EnsureTokens: allocation never fails, and the warm pool is not modelled; lists are one dictionary by slot, op and kind.
- TensorGraph.ReshapeRightIff: types of block size one.
- TensorGraph.SliceReshapeIff: the source of a slice is packed in every stride, as new tensors, copies and reshapes are; the copies of graph outputs and those that `GGMLC_VIEW_FORCE_CONT` and `GGMLC_RESHAPE_FORCE_CONT` turn on are not modelled.
- GatedDelta.GatedDeltaNet: one batch element and head; reals instead of floats, exp an arbitrary function (positive in GatedDelta.ChannelGatesIff).
- Json.SetGet: a value has one kind, so setting a field on a non-object gives an object with that field only; updating in place is modelled as giving the new value.
- JsonRoundTrip.RoundTripIff: numbers are exact reals without overflow or negative zero; how the stream library prints other numbers is an arbitrary function whose results are number tokens.
- Questions.QuestionFromJson: `validate_questions_json` and answers are not modelled.
- Decide.Run: encoding, padding, the forward and decoding an answer are arbitrary functions; only the forward fails.
- Sampling itself, tokenizers, CLI, HTTP server, web assets, loaders, compilers, CUDA graphs, profiling and thread pools: foreign calls, I/O and glue.
