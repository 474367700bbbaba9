# Verification of fastllm's stateful core

A Dafny model of the parts of fastllm where fast, stateful code stands in for a simple specification, with proofs that it
does. `dafny verify dfyconfig.toml` checks everything. Methods follow the program: they update fields, arrays and lists in place, loop where it loops,
and are proved against specification functions; lemmas prove what those functions mean.

**Paged cache** (modules `PageLists`, `PagePools`, `PageTrie`, `PrefixView`, `PageHistory`, `PageHashing`, `PageCutting`, `PageRuns`, `PageState`, `PagedCache`, `PagedRuns`).
A reference-counted page allocator with two idle pools, each kept as a vector and as a set, under a hash-edged trie of recorded prefixes.
The heap of trie nodes is explicit, and two ghost fields give the path of every node and the node at every path. A ghost log records
which page was last recorded for which prefix. Every public method runs under one mutex, so each call is one step.
What callers see is the view, a map from prefixes to pages, with the entries of the reverse map.
`CanRecord` is what a caller owes to a recording: the written pages are distinct, and each is new to the trie or already at its prefix.
In runs whose recordings obey it, `Valid` and `Exact` hold between any two calls. In other runs `Valid` holds as long as every eviction is defined
(`EvictionDefined`); a run that leads to an undefined one is `PagedRuns.OverlappingCalls`.

**Compute graph** (`GraphSemantics`, `GraphKernel`, `GraphMerge`, `GraphOptimizer`, `GraphPreservation`, `GraphRewriting`, `GraphConditions`, `GraphRunnable`, `GraphExample`).
Ops transform a store of named matrices. `Optimize` merges runs of `Linear` into a wide one, with `Split`s or a `Swiglu` behind it;
the live names keep their values. `WellFormed` lists what that takes, turn by turn; `Acceptable` is a condition on the graph as it is before,
and `GraphExample` meets it.

**Tokenizer** (`TokenTrie`, `PairMerging`, `MergeLocality`, `ScoreMerge`, `TextScan`, `TokenIds`, `Tokenizers`, `RankMerge`, `RankEncoding`, `Viterbi`, `UnigramEncoding`).
Plain byte pair encoding, which joins the best pair, the leftmost on ties, until none is left, is the reference for
the score-driven engine (linked symbols, work queue with stale entries) and for the rank-driven one (linked boundaries, ordered set).
The unigram engine is proved to find a segmentation of best score. Reading ids back is the inverse of encoding, exactly as far as `TokenIds.TextReturns` says.

**Jinja templates** (`JinjaValues`, `JinjaExpressions`, `JinjaGrouping`, `JinjaTemplates`, `JinjaLoops`, `JinjaInterpreter`, `JinjaRendering`, `JinjaMeaning`).
The shunting-yard translation and the stack machine compute the value of the expression tree, and the interpreter over the flat list of blocks
does what the tree of blocks says.

**Weights** (`WeightNames`, `PackedInt8`, `GroupQuantization`, `Int4Group32`, `Nvfp4Layout`, `Nvfp4Packing`, `Nvfp4Recovery`, `FastllmFormat`, `FormatChanges`, `FastllmStreams`).
Wildcard matching of weight names, exact repacking of 8-bit weights, error bounds of 4-bit quantisation, the layouts of packed rows, and the serialised format.
The half-precision target is binary16 of section 3.4 of IEEE 754-2019.

`Arithmetic` and `Wrappers` are shared helpers.

## Where the code does not do what one would expect

- Queries: different token pages can have the same hash (`PageHashing.PagesClash`). Over a set of pages, all queries of all runs answer for the tokens that were asked for if and only if the token hash is injective on the pages of the set with the same extra key (`PageRuns.TokensAnswerIff`). Managers with at most two tokens to a page are safe when all tokens are below the base of the hash (`PageRuns.ShortPagesAnswer`); without that bound they are not (`PageRuns.ClashingRun`, and call by call `PagedRuns.ClashingCalls`).
- Eviction: when no free page and no leaf is left, the program erases the map entry of the page it takes through an iterator that it got before it evicted everything below. If a node below holds the same page, the entry is gone and the behaviour is undefined (`PageState.IteratorKept` says exactly when). It cannot happen while recordings obey their contract (`PageState.ExactDefined`); `PagedRuns.OverlappingCalls` is a run where it does.
- Chains of plus and minus are grouped to the right. The value is the usual one if and only if the operands behind an odd number of minus signs, each with its own sign, add up to zero (`JinjaGrouping.PlusMinusChain`): `a - b - c` and `a - b + c` exactly when `c` is 0.
- Chains of `%` are taken from the right as well. Given the divisors, the value is the usual one for all dividends if and only if there is one divisor, or one of them is 0, or the first is smaller in size than what the others, taken from the right, come to (`JinjaGrouping.RemaindersAgree`).
- `and` and `or` share a level: `x and y or z` is `x and (y or z)`, which is wrong exactly when `x` is false and `z` is true. For whole chains `JinjaGrouping.AndOrChain` says when.
- `loop.last` is set after a turn, for the next one, by counting up the `index` that the body left in `loop`. For any body and a loop variable not itself named `loop`, it is right in all turns if and only if there is no turn, or there are several and each turn but the last leaves the right announcement behind (`JinjaLoops.LastInAnyRun`; in numbers `LastByIndices`). For a body without a loop and without an assignment to `loop`, at any depth, that means: over an array if and only if the array has not just one value, over a dictionary if and only if that is empty (`LastInRun`). Nothing restores `loop` after an inner loop. Around an inner loop the number of its turns counts: in an outer loop over n values it must be n - 2 in the turn before the last one and not in any earlier turn (`NestedLoop`); with the same number m in every turn that leaves n = 0, or n = 2 and m = 0 (`SameInnerLoop`). A body that sets `loop` to a number stops the loop (`SetLoopFails`).
- The serialised format does not keep the maximum of an INT4_NOZERO config. A trip changes nothing if and only if the zero points of all channels are whole (`FormatChanges.TripUnchanged`); the range from -1 to 1 loses its maximum (`FormatChanges.MaximumLost`). After one trip, further trips change nothing (`FastllmFormat.SecondTrip`).
- The rank-driven encoding cuts its stretch of text out by the number of symbols found. That is the stretch if and only if every byte of it that starts a token is a token (`RankEncoding.CutIsExact`); with "ab" as the only token the text "ab" is encoded as "b" (`RankEncoding.WrongCut`).
- Looking up the id of an unknown piece adds the piece to the dictionary with id 0, which is the best rank. The encodings of all texts stay as they are if and only if plain byte pair encoding leaves none of the added pieces in two pieces (`RankEncoding.SameEncodingsIff`); a byte never is, a string of two bytes always (`RankEncoding.ShortPieces`). When the stretch is cut exactly, only bytes are added and nothing changes (`RankEncoding.EncodingStable`). When it is not, later texts can be encoded differently (`RankEncoding.LookupChanges`).
- Reading back what was encoded: a token whose string has the form of a byte name, or is `<n>` or `<|tab|>`, is shown as something shorter, and an unknown byte without a name is dropped. A text comes back if and only if its encoding has neither (`TokenIds.TextReturns`). A vocabulary that lists `<0x41>` as a token and no shorter beginning of it encodes the text `<0x41>` as that token and reads it back as `A` (`TokenIds.TypedMark`).
- Packing NVFP4 rows: with more global scales than rows of scales, the last global scale is used for no row (`Nvfp4Recovery.LastGlobalUnused`).
- A run of Linear ops of which only some have a bias is not merged; the loop goes on with the next op, which may start a shorter run that is.

## Model

| member | source | states |
|---|---|---|
| `PagedCache.PagedCacheManager.Query` | src/fastllm.cpp:6180-6213 | In an exact state the answer is the longest cached chain of prefixes of the queried tokens and keys, and page i of it was last recorded for exactly the first i + 1 (hash, extra key) edges and not handed out since; in any valid state all answers are pages of the pool. What these edges are in tokens, PageCutting.PagesCut and AnswersTokens say |
| `PagedCache.PagedCacheManager.Record` | src/fastllm.cpp:6105-6178 | For any earlier trie: up to the first collision with another extra key, each prefix of the recorded path now has the given page and nothing else in the view changes; counts are kept, exactly the written pages get the new timestamp, the log gains one event per page, and a recording that obeys the contract keeps the state exact. The recorded pages are those of PageCutting.RecordKeys and PagesCut |
| `PagedCache.PagedCacheManager.RecordPage` | src/fastllm.cpp:6119-6177 | One turn of the loop: the page is recorded at the child its key selects, which is where the path leads, or nothing changes because that prefix collides |
| `PagedCache.PagedCacheManager.RecordNew` | src/fastllm.cpp:6129-6136 | Linking a new child in and labelling it changes the view at its own path only, keeps every other mapping, and keeps the pools in step when the page was free |
| `PagedCache.PagedCacheManager.RecordOld` | src/fastllm.cpp:6137-6173 | Giving an existing node another page changes the view at its path only; an idle page that lost its node becomes free |
| `PagedCache.PagedCacheManager.UnmapPage` | src/fastllm.cpp:6142-6155 | The page leaves the reverse map, and the pools are again what counts and map require |
| `PagedCache.PagedCacheManager.MapPage` | src/fastllm.cpp:6159-6173 | Before a page enters the reverse map it is moved so that the pools will be what counts and map require |
| `PagedCache.PagedCacheManager.GetUnusedPageIndex` | src/fastllm.cpp:5925-6016 | Fails exactly when both pools are empty; otherwise the page had no reference and, when picked, has one. A free page costs no cached prefix; a cached one evicts exactly its own prefix and all longer ones with their entries, chosen as the last leaf, else the last page of the trie pool. Where the program would erase through an invalid iterator there is no result: picking requires EvictionDefined |
| `PagedCache.PagedCacheManager.EvictCached` | src/fastllm.cpp:5958-6012 | Where it is defined: evicting hands out an unreferenced cached page; the view loses exactly the prefixes through it, and the vectors change as the choice says |
| `PagedCache.PagedCacheManager.LastLeaf` | src/fastllm.cpp:5965-5984 | The scan from the back finds the last page whose node has no children, or none; every entry has a node, so the stale branch is dead |
| `PagedCache.PagedCacheManager.DetachLeaf` | src/fastllm.cpp:5976-5983 | Swap-removes the leaf from its pool and removes exactly its node |
| `PagedCache.PagedCacheManager.DetachLast` | src/fastllm.cpp:5986-6011 | Removes the last page, its node and exactly the nodes below; their idle pages move to the free pool, and the vector is filtered down to its set. No node below may hold the same page, so that the entry of the page is still there when it is erased |
| `PagedCache.PagedCacheManager.EvictTrieSubtree` | src/fastllm.cpp:5908-5923 | Terminates and deletes exactly the subtree of the node; the pages in it leave the map, and the idle ones among them become free |
| `PagedCache.PagedCacheManager.EvictChildren` | src/fastllm.cpp:5908-5912 | The same for everything strictly below a node, child by child |
| `PagedCache.PagedCacheManager.RemoveTrieLeaf` | src/fastllm.cpp:5898-5905 | Unlinks the node from its parent and deletes it |
| `PagedCache.PagedCacheManager.HandOut` | src/fastllm.cpp:5983-6013 | A detached page gets its first reference; with the pruned trie the state is valid again, and exact if it was |
| `PagedCache.PagedCacheManager.TakeFreePage` | src/fastllm.cpp:5948-5954 | Handing out the last free page changes neither trie nor view |
| `PagedCache.PagedCacheManager.SetMaxPages` | src/fastllm.cpp:5874-5895 | All pages are free, nothing is cached, and the history starts anew |
| `PagedCache.PagedCacheManager.constructor` | src/fastllm.cpp:5874-5895 | A new manager is valid and exact |
| `PagedCache.PagedCacheManager.ReleasePageIndex` | src/fastllm.cpp:6018-6035 | Counts never fall below zero; the last reference puts the page at the end of the pool that fits it, once; the view is kept |
| `PagedCache.PagedCacheManager.ReleasePageIndices` | src/fastllm.cpp:6037-6056 | One reference less per entry, in order; the pages that lose their last one are appended to the pool that fits them, in the order in which they lose it; the view is kept |
| `PagedCache.PagedCacheManager.Pick` | src/fastllm.cpp:6058-6087 | One reference more per entry; listed pages leave both pools, the others keep their order; the view is kept |
| `PagedCache.PagedCacheManager.PickEach` | src/fastllm.cpp:6061-6068 | The sets lose exactly the listed pages, and a set whose flag is not raised is unchanged |
| `PagePools.Partition` | include/fastllm.h:731-737 | Each page is in exactly one of the free pool, the trie pool and the pages in use, and the three sizes add up to the number of pages |
| `PageState.Accounts` | include/fastllm.h:731-752 | In every valid state: a page is free exactly when it has no reference and no node, in the trie pool exactly when it has no reference and a node, and free plus idle plus used pages are all pages |
| `PageState.IteratorKept` | src/fastllm.cpp:5986-6002 | The map entry of the page outlives the eviction of everything below its node if and only if no node below holds the page |
| `PageState.ExactDefined` | src/fastllm.cpp:5986-6002 | As long as recordings obey their contract every eviction is defined |
| `PageState.OverlapUndefined` | src/fastllm.cpp:5986-6002 | With one page at two prefixes of one path, entered under the shorter one and released, the eviction is not defined |
| `PagedRuns.OverlappingCalls` | src/fastllm.cpp:5925-6178 | Five calls that lead from a new manager to such a state, for any two tokens and any hash |
| `PageCutting.PagesCut` | src/fastllm.cpp:6110-6124 | Any number of pages of a text, put one behind the other, are the beginning of the text: n pages hold its first n * pageLen tokens, pageLen in each, with the first n extra keys, or empty ones where none are given |
| `PageCutting.CutUnique` | src/fastllm.cpp:6110-6124 | There is only one such way to cut a text into n pages |
| `PageCutting.RecordKeys` | src/fastllm.cpp:6110-6115 | A recording takes as many pages as the least of whole pages of tokens, extra keys and pages given |
| `PageCutting.SamePages` | src/fastllm.cpp:6110-6191 | Two calls look at the same first n pages if and only if their first n * pageLen tokens and first n extra keys are the same |
| `PageCutting.AnswersTokens` | src/fastllm.cpp:6105-6213 | Where the hash tells the pages apart, page i of an answer was last recorded for tokens of which the first (i + 1) * pageLen are those of the query, with the same extra keys |
| `PageCutting.RecordedAnswers` | src/fastllm.cpp:6105-6213 | A query after a recording starts with the first n recorded pages if and only if it asks for the same n pages |
| `PagedRuns.RecordThenQuery` | src/fastllm.cpp:6105-6213 | The same on the manager itself, in raw tokens: record one text, query another; the answer starts with the first n recorded pages if and only if the texts agree in n pages of tokens and n extra keys, and every page of the answer was last recorded for the tokens asked |
| `PageRuns.AllAnswerIff` | src/fastllm.cpp:5925-6213 | Over any set of pages: every query of every run answers for the keys that were asked for if and only if no two pages of the set take the same edge |
| `PageRuns.TokensAnswerIff` | src/fastllm.cpp:6089-6213 | With the hash of the program: if and only if the token hash is injective on the pages of the set with the same extra key |
| `PageRuns.RunTruthful` | src/fastllm.cpp:5925-6213 | After any run that obeys the contract, each cached page was last recorded for exactly the edges of its prefix, and not handed out since |
| `PageRuns.ShortPagesAnswer` | src/fastllm.cpp:6089-6096 | Managers with at most two tokens to a page, all below the base of the hash, answer for the tokens in every run |
| `PageRuns.ClashingRun` | src/fastllm.cpp:6089-6096 | With two tokens to a page and no bound on them, some run has a query that answers for other tokens |
| `PageRuns.ClashAnswers` | src/fastllm.cpp:6105-6213 | Recording one page and querying another one with the same edge gives the page of the first |
| `PagedRuns.ClashingCalls` | src/fastllm.cpp:6105-6213 | The same on the manager itself: record one page of tokens, query another one with the same hash, get the page of the first |
| `PageState.ExactAnswers` | src/fastllm.cpp:6180-6213 | In an exact state whose hash tells the recorded and the queried pages apart, a query answers for the keys that were asked for |
| `PageState.CanWrite` | src/fastllm.cpp:6105-6178 | The contract of a recording, as the view shows it: distinct pages, cached nowhere or only at their own prefix |
| `PageState.HandsOut` | src/fastllm.cpp:5925-6016 | Handing a page out, as the view shows it |
| `PagePools.PickThenRelease` | src/fastllm.cpp:6018-6087 | Picking pages and releasing the same list leaves all counts as they were |
| `PagePools.Release` | src/fastllm.cpp:6018-6035 | Dropping a reference keeps the pool invariant |
| `PagePools.EmptiedStep` | src/fastllm.cpp:6039-6055 | A released page joins a pool exactly when the list has named it as often as it had references |
| `PagePools.TakeCached` | src/fastllm.cpp:5958-6013 | Handing out a cached page after evicting others keeps the pool invariant |
| `PageLists.RemovePage` | src/fastllm.cpp:6146-6152 | The scan from the back takes out one occurrence by swapping the last entry in |
| `PageLists.Compact` | src/fastllm.cpp:6003-6010 | The filter loop keeps the entries that are in the set, in order |
| `PageTrie.AddChildInv` | src/fastllm.cpp:6129-6136 | A fresh child keeps the heap one tree in which links and edge hashes agree; its path was not there before |
| `PageTrie.PruneInv` | src/fastllm.cpp:5908-5923 | Removing a node and everything below keeps the tree, and removes exactly the subtree |
| `PageTrie.SubtreeSplit` | src/fastllm.cpp:5908-5912 | A subtree is its root and the subtrees of the children |
| `PageTrie.SiblingsApart` | src/fastllm.cpp:5908-5912 | Subtrees of different children share no node, so no node is deleted twice |
| `PageTrie.PrefixClosed` | src/fastllm.cpp:6119-6176 | Every prefix of a cached path is in the trie |
| `PrefixView.Lookup` | src/fastllm.cpp:6191-6199 | Looking a hash up among the children finds the node of the longer path unless the extra keys differ |
| `PrefixView.RecordThenQuery` | src/fastllm.cpp:6105-6213 | Recording and then querying the same or a longer path returns the recorded pages first |
| `PrefixView.RecordKeepsQuery` | src/fastllm.cpp:6105-6213 | A later recording that re-pages no node of the path leaves every cached prefix findable |
| `PrefixView.EvictThenQuery` | src/fastllm.cpp:5925-6016 | Evicting a prefix cuts the queries through it exactly there and no other query |
| `PrefixView.QueryFrame` | src/fastllm.cpp:6180-6213 | A query depends on the prefixes of its own path only |
| `PrefixView.RecordViewAt` | src/fastllm.cpp:6119-6177 | A recording changes exactly the prefixes it writes |
| `PrefixView.RecordKeepsCollisions` | src/fastllm.cpp:6138-6140 | What a recording has written so far causes no new collision further down |
| `PrefixView.PruneView` | src/fastllm.cpp:5908-5923 | Pruning a node evicts its path and all longer ones from the view |
| `PageHistory.LastRecordedMeans` | src/fastllm.cpp:6105-6178 | The last recording of a page is the event after which no event concerns the page |
| `PageState.RewriteExact` | src/fastllm.cpp:6170-6173 | Recording a page that obeys the contract keeps every node exact: mapped back, current, last recorded for its own path |
| `PageState.RewriteMap` | src/fastllm.cpp:6170-6173 | Recording keeps the reverse map pointing into the trie |
| `PageState.PruneExact` | src/fastllm.cpp:5908-5923 | Eviction keeps all other nodes exact |
| `PageState.ReleasedOnce` | src/fastllm.cpp:6018-6035 | A release touches neither trie nor history |
| `PageState.ProgressStep` | src/fastllm.cpp:6119-6177 | One turn of a recording: the contract for the remaining pages survives the pages written so far |
| `PageHashing.ComputeHashTokenPage` | src/fastllm.cpp:6089-6096 | The loop computes the polynomial hash |
| `PageHashing.ComputeHashPrefixExtra` | src/fastllm.cpp:6098-6103 | The loop mixes the bytes of the key in |
| `PageHashing.HashIsPolynomial` | src/fastllm.cpp:6089-6096 | The wrapped hash is the unbounded polynomial modulo 2^64 |
| `PageHashing.ExtraKeepsApart` | src/fastllm.cpp:6098-6103 | Mixing in one extra key is injective: every step, exclusive or and odd factor, can be undone modulo 2^64 |
| `PageHashing.XorBits` | src/fastllm.cpp:6099-6101 | A bit of the mixed hash is set exactly when it is set in one of the two numbers |
| `PageHashing.OneByte` | src/fastllm.cpp:6098-6103 | One byte of an extra key: exclusive or, then times 1099511628211 modulo 2^64 |
| `PageHashing.SameEdge` | src/fastllm.cpp:6122-6124 | Two pages take the same edge exactly when extra keys and token hashes agree |
| `PageHashing.ShortPages` | src/fastllm.cpp:6089-6096 | Pages of up to two tokens below the base never clash |
| `PageHashing.PagesClash` | src/fastllm.cpp:6089-6096 | A concrete pair of different pages that take the same edge |
| `GraphPreservation.OptimizePreserves` | src/graph.cpp:6-104 | For every well-formed graph and all inputs, the rewritten ops on the rewritten weights give every live name the value that the original ops on the original weights give it |
| `GraphRewriting.OptimizeComputeGraph` | src/graph.cpp:6-104 | On every graph whose runs can be merged at all, the index-jumping loop over ops and weight map computes exactly the rewriting, ops and weights; on well-formed graphs every live name keeps its value on all inputs |
| `GraphPreservation.OptimizeKeepsMeaning` | src/graph.cpp:6-104 | The same for all inputs at once |
| `GraphConditions.AcceptableWellFormed` | src/graph.cpp:6-104 | Conditions on the graph and the weights as they are before the optimiser starts make the graph well-formed |
| `GraphConditions.SameTurn` | src/graph.cpp:9-30 | Under them every turn goes on the weights it finds as it would on the original ones |
| `GraphConditions.ReachedNext` | src/graph.cpp:9-103 | What the optimiser has erased and added by the time it reaches an op |
| `GraphRunnable.TestableRunnable` | src/graph.cpp:6-104 | Conditions on the untouched graph under which the optimiser can do its work at all, whether or not the result means the same |
| `GraphExample.ExampleAcceptable` | src/graph.cpp:6-104 | A graph that meets them; its first run is fused with a gate and its second one is merged and split |
| `GraphRewriting.WellFormedRunnable` | src/graph.cpp:6-104 | In well-formed graphs all runs can be merged |
| `GraphPreservation.Simulates` | src/graph.cpp:9-103 | From related stores both graphs run to the same live values, whatever mix of runs, splits, fusions and kept ops follows |
| `GraphPreservation.TurnRelated` | src/graph.cpp:9-103 | One turn: what it emits does on the new store what the ops it consumes do on the old one |
| `GraphPreservation.SplitRun` | src/graph.cpp:30-98 | A merged run with its splits keeps the stores related |
| `GraphPreservation.GatedRun` | src/graph.cpp:79-90 | A merged pair fused with its gate keeps the stores related; the second output goes stale |
| `GraphPreservation.KeptOp` | src/graph.cpp:102-102 | An op that is kept does the same on related stores |
| `GraphPreservation.BiasesMatch` | src/graph.cpp:19-56 | The wide bias fits the biases of the run: stacked, or absent, or empty |
| `GraphPreservation.StartRelated` | src/graph.cpp:6-8 | Before the first op the stores are related |
| `GraphMerge.PartOfStack` | src/graph.cpp:66-76 | Row o of part l is found in the concatenation behind the rows of the parts before, for data dealt out evenly over rows |
| `GraphMerge.StackedRow` | src/graph.cpp:57-77 | A row of the wide weight, with its configs, zeros, scales and minima, is the row of the part it came from |
| `GraphMerge.WideSplit` | src/graph.cpp:92-97 | Splitting the wide product by the row counts gives back the product with each part |
| `GraphMerge.WideSwiglu` | src/graph.cpp:79-90 | Gated activation of the wide product is silu of the first product times the second, for equal halves |
| `GraphKernel.LinearIsProduct` | src/graph.cpp:30-77 | For plain numbers Linear is the product of a matrix with the rows of the weight, with the bias added where there is one |
| `GraphKernel.RowFields` | src/graph.cpp:57-77 | A row of a weight has its own share of bytes and metadata |
| `GraphSemantics.StepFrame` | src/graph.cpp:609-619 | An op changes only the names it writes |
| `GraphSemantics.StepSame` | src/graph.cpp:609-619 | An op writes values that depend only on what it reads |
| `GraphSemantics.RunConcat` | src/graph.cpp:126-624 | Running one list after another is running their concatenation |
| `GraphOptimizer.MergedMapKeys` | src/graph.cpp:30-77 | What the weight map keeps, loses and gains in a merge |
| `GraphOptimizer.FinalMap` | src/graph.cpp:6-104 | The whole rewriting keeps the value of every weight it does not erase, and only adds fresh names |
| `GraphOptimizer.DeadAfter` | src/graph.cpp:79-90 | A name no later op reads stays dead past ops that do not write it |
| `GraphRewriting.MergeWeights` | src/graph.cpp:57-77 | The loop that copies and erases the weights leaves the map with the stacked weight in their place |
| `GraphRewriting.MergeBias` | src/graph.cpp:42-56 | The wide bias as the map gets it in each of the three cases |
| `GraphRewriting.MergeNames` | src/graph.cpp:31-40 | Names, row counts and their sum |
| `GraphRewriting.CopyBytes` | src/graph.cpp:49-49 | A copy fills its stretch of the buffer and nothing before it |
| `GraphRewriting.FindRun` | src/graph.cpp:12-15 | The run is the longest stretch of Linear ops with the same input |
| `GraphRewriting.BiasMask` | src/graph.cpp:18-28 | The mask tells whether all ops of a run have a bias or none has |
| `GraphRewriting.DetectRun` | src/graph.cpp:11-30 | The tests of the loop decide exactly whether a run is merged |
| `GraphRewriting.EmitSplits` | src/graph.cpp:91-97 | The loop emits one split per output, with running offsets |
| `GraphRewriting.EmitRest` | src/graph.cpp:79-99 | Behind the wide op come the gate or the splits, and the loop index moves past what was consumed |
| `GraphRewriting.MergeTurn` | src/graph.cpp:30-100 | A merging turn on buffers of the right sizes emits and erases exactly what the rewriting of that turn says |
| `Tokenizers.Tokenizer.BytePairEncode` | src/tokenizer.cpp:312-417 | The ids are those of plain byte pair encoding (best score, leftmost on ties) on the scanned input. With dictionaries that agree, reading them back never gives a longer text, and gives the text itself if and only if no item of the encoding is a mark and every unknown byte has a name |
| `Tokenizers.EncodingMeaning` | src/tokenizer.cpp:312-417 | The result spells the input, no two neighbours can be joined, unknown bytes and special tokens stay where they were, and all other pieces are tokens |
| `Tokenizers.Tokenizer.MergeSymbols` | src/tokenizer.cpp:370-395 | The loop over the lazily invalidated queue joins the list to what plain byte pair encoding makes of it |
| `Tokenizers.Tokenizer.TryMergePairs` | src/tokenizer.cpp:117-135 | Queues the entry of a pair exactly when both symbols are alive and their string is a token |
| `Tokenizers.Tokenizer.CollectIds` | src/tokenizer.cpp:397-416 | One id per surviving symbol; unknown bytes by their byte name; joined symbols are skipped |
| `TokenIds.NameRead` | src/tokenizer.cpp:397-412 | For all 256 bytes: reading the name under which an unknown byte is looked up gives the byte |
| `TokenIds.TextReturns` | src/tokenizer.cpp:312-417 | Encoding a text of bytes and reading the ids back gives the text if and only if its encoding has no mark (a token that decoding does not show as its string) among its items and every unknown byte in it has a name; otherwise the result is shorter |
| `TokenIds.AllTextsReturn` | src/tokenizer.cpp:312-417 | With no mark among the tokens and every byte a token or named, all texts come back |
| `TokenIds.TypedMark` | src/tokenizer.cpp:664-693 | A text that is itself a mark among the tokens, such as the name of a byte, does not come back |
| `Tokenizers.Tokenizer.DecodeTokens` | src/tokenizer.cpp:664-693 | The loop puts the strings of the ids one behind the other, names of bytes read and marks replaced; looking unknown ids up only adds empty strings |
| `Tokenizers.Tokenizer.ShowToken` | src/tokenizer.cpp:667-692 | One token, with the loop over the two digits of a byte name |
| `Tokenizers.Tokenizer.ScanSymbols` | src/tokenizer.cpp:313-368 | The symbols form a list over the input that holds the scanned items |
| `Tokenizers.Tokenizer.ScanSymbol` | src/tokenizer.cpp:322-367 | One special token, shortest token or single byte is pushed and the position moves past it |
| `Tokenizers.Tokenizer.FindShortest` | src/tokenizer.cpp:345-358 | The walk finds the shortest token from a position, or none |
| `Tokenizers.Tokenizer.JoinSymbols` | src/tokenizer.cpp:383-391 | Joining two neighbours: node, lengths and links |
| `Tokenizers.Tokenizer.Insert` | src/tokenizer.cpp:75-88 | Trie and maps gain the token and lose nothing; with a new id the dictionaries stay in agreement |
| `TokenTrie.Trie.Insert` | src/tokenizer.cpp:75-86 | After inserting, following a string through the trie finds the token exactly for the strings of the vocabulary |
| `TextScan.ScanSpells` | src/tokenizer.cpp:312-368 | The scan spells the input and consists of tokens, special tokens and single bytes |
| `TextScan.ClosedLaid` | src/tokenizer.cpp:368-368 | Marking the last symbol makes the scanned symbols a linked list over the whole input |
| `ScoreMerge.UpToDateAdjacent` | src/tokenizer.cpp:376-381 | A popped entry that passes the length test joins two neighbours of the list |
| `ScoreMerge.TopIsBest` | src/tokenizer.cpp:375-381 | The top of the queue, when it passes the test, is the pair that plain byte pair encoding joins |
| `ScoreMerge.EmptyIsStuck` | src/tokenizer.cpp:375-375 | When the queue is empty nothing can be joined |
| `ScoreMerge.EntryMeaning` | src/tokenizer.cpp:117-135 | Two neighbours can be joined exactly when they have a queue entry, and its score is their cost |
| `ScoreMerge.StaleStep` | src/tokenizer.cpp:378-381 | Dropping an entry that fails the test loses no pair that can be joined |
| `ScoreMerge.JoinLaid` | src/tokenizer.cpp:383-391 | Joining keeps the list laid over the input and joins the two items |
| `ScoreMerge.JoinSound` | src/tokenizer.cpp:383-394 | Entries in the queue stay sound when symbols grow or go |
| `ScoreMerge.JoinCovered` | src/tokenizer.cpp:393-394 | After a join only the two pairs around it can be new |
| `ScoreMerge.JoinReady` | src/tokenizer.cpp:375-395 | A whole turn that joins keeps the loop invariant |
| `PairMerging.MergedMeaning` | src/tokenizer.cpp:312-417 | Plain byte pair encoding keeps text and barriers, yields known pieces and ends with nothing to join |
| `PairMerging.MergedStep` | src/tokenizer.cpp:375-395 | Joining the best pair first does not change the result |
| `PairMerging.BestBelow` | src/tokenizer.cpp:375-381 | The reference choice: no pair is cheaper, none further left is as cheap |
| `RankEncoding.CutIsExact` | src/tokenizer.cpp:519-523 | The text that is cut out is the stretch if and only if every byte of the stretch that starts a token is a token |
| `RankEncoding.SinglesMean` | src/tokenizer.cpp:586-597 | That condition in terms of the vocabulary |
| `RankEncoding.WrongCut` | src/tokenizer.cpp:519-523 | With "ab" but not "a" as a token, the text cut out for "ab" is "b" |
| `RankEncoding.EncodeChunk` | src/tokenizer.cpp:518-573 | The boundaries are those of plain byte pair encoding by lowest rank, leftmost on ties, from the single bytes of the text the ranks are taken from; the ids are those of the pieces between them; the dictionary gains only the pieces it lacked |
| `RankEncoding.ChunkMeaning` | src/tokenizer.cpp:518-573 | When all single bytes are tokens the pieces are tokens, spell the text and cannot be joined |
| `RankEncoding.IdsSpell` | src/tokenizer.cpp:567-573 | Where every piece is a token and ids lead back to their strings, the strings of the ids spell the text |
| `RankEncoding.EncodeStretch` | src/tokenizer.cpp:517-608 | Symbols are counted over the stretch; there is a result exactly when the count ends where the stretch does, with ranks from the front and pieces from the back of the stretch. The lookups leave the encodings of all texts as they are if and only if none of the missing pieces is left in two. When every byte that starts a token is a token, the ids are those of plain byte pair encoding of the whole stretch, and no encoding changes |
| `RankEncoding.SameEncodingsIff` | src/tokenizer.cpp:567-573 | For any pieces that are looked up: the encodings of all texts stay the same if and only if plain byte pair encoding leaves none of the missing pieces in two pieces |
| `RankEncoding.ShortPieces` | src/tokenizer.cpp:567-573 | A missing byte is left in one piece, a missing string of two bytes in two |
| `RankEncoding.EncodingStable` | src/tokenizer.cpp:567-573 | When the text of the ranks is the text of the pieces, the entries that lookups add change the encoding of no text |
| `RankEncoding.LookupChanges` | src/tokenizer.cpp:519-573 | With the tokens ab, x, y and b, encoding abxy adds bx with id 0; the text bx, two tokens before, is encoded as that id afterwards |
| `MergeLocality.LocalStep` | src/tokenizer.cpp:540-563 | What was joined inside a stretch of the text is what would have been joined in that stretch alone |
| `MergeLocality.NothingNew` | src/tokenizer.cpp:540-563 | More strings that may be joined change no result as long as none of them was left in two pieces |
| `MergeLocality.SomethingNew` | src/tokenizer.cpp:540-563 | If one was, a shortest such string becomes one piece |
| `RankEncoding.MergeRanks` | src/tokenizer.cpp:520-563 | The linked list and ordered set leave the pieces of plain byte pair encoding; the loop terminates |
| `RankEncoding.GetRank` | src/tokenizer.cpp:137-148 | The rank over a stretch of boundaries, or the largest int when it runs off the list or is no token |
| `RankEncoding.InitialRanks` | src/tokenizer.cpp:535-537 | Every boundary starts with the rank of the pair behind it |
| `RankEncoding.Skip` | include/fastllm.h:774-782 | Following t links reaches the boundary t places further on, or none |
| `RankMerge.FirstIsBest` | src/tokenizer.cpp:542-547 | The first entry of the set is the pair that plain byte pair encoding joins, and when its rank is the largest int nothing can be joined |
| `RankMerge.JoinRanked` | src/tokenizer.cpp:549-561 | After a join, with two ranks recomputed, every boundary that is left has its rank |
| `RankMerge.JoinSetHolds` | src/tokenizer.cpp:549-559 | After a join the set again holds exactly the current ranks of the boundaries that are left |
| `RankMerge.JoinPieces` | src/tokenizer.cpp:559-561 | Taking a boundary out joins exactly the two pieces around it |
| `UnigramEncoding.UnigramEncode` | src/tokenizer.cpp:211-310 | The ids are those along a path of best total score through the lattice of tokens; of several such paths the first one, seen from the end |
| `UnigramEncoding.BestSegmentation` | src/tokenizer.cpp:211-310 | Without special tokens that path is a segmentation of the input into tokens, and none scores better |
| `UnigramEncoding.BuildLattice` | src/tokenizer.cpp:214-282 | The lattice has exactly the tokens, or the special token, that start at each position |
| `UnigramEncoding.LatticeReachable` | src/tokenizer.cpp:214-282 | With all single bytes known every position that can follow is reachable |
| `Viterbi.BestPath` | src/tokenizer.cpp:283-306 | The links of the end cell describe a path that no other path outscores, and any other path that scores the same takes a later cell where the two first part, seen from the end |
| `Viterbi.TraceFirst` | src/tokenizer.cpp:288-292 | Among equally good predecessors the first one is kept, along the whole path |
| `Viterbi.Solve` | src/tokenizer.cpp:283-296 | After relaxing in order every cell has the best score over its predecessors |
| `Viterbi.Backtrack` | src/tokenizer.cpp:297-306 | Following the links back and reversing gives the ids along the best path |
| `JinjaExpressions.ComputePrint` | src/template.cpp:483-749 | Writing a well-bracketed tree down and computing it gives the value of the tree, or fails when the tree has none |
| `JinjaExpressions.BracketedMeaning` | src/template.cpp:483-749 | Every tree can be written down with brackets so that its value is computed |
| `JinjaExpressions.ComputeFlat` | src/template.cpp:328-354 | For every list of operands with operators between: higher levels bind tighter, equal levels group to the right |
| `JinjaExpressions.PostfixOfPrint` | src/template.cpp:487-564 | The translation of a printed tree is its postfix form |
| `JinjaExpressions.RunPost` | src/template.cpp:566-711 | The postfix form pushes the value of the tree, or fails, on any stack |
| `JinjaGrouping.PlusMinusChain` | src/template.cpp:328-354 | For all chains of plus and minus over ints, and of minus over floats: the value of the right grouping, of the left grouping, and that they agree if and only if the operands behind an odd number of minus signs add up to zero |
| `JinjaGrouping.ThreeTerms` | src/template.cpp:328-354 | The four chains of three ints: right exactly when the first operator is plus or the last operand 0 |
| `JinjaGrouping.RemainderChain` | src/template.cpp:258-261 | For all chains of remainders over ints: the program takes them from the right, errors included, the usual grouping from the left |
| `JinjaGrouping.RemaindersAgree` | src/template.cpp:258-261 | Given any list of divisors, both ways agree for all dividends if and only if there is one divisor, or one is 0, or the first is smaller than what the others, taken from the right, come to |
| `JinjaGrouping.AndOrChain` | src/template.cpp:331-332 | For all chains of and and or: the computed value, the usual one, and that they differ if and only if an and behind a false operand cuts off a later stretch that is true |
| `JinjaGrouping.AndThenOr` | src/template.cpp:331-332 | x and y or z is wrong exactly when x is false and z is true |
| `JinjaExpressions.InfixToPostfix` | src/template.cpp:487-564 | The loop over the operator stack computes the translation, bracket errors included |
| `JinjaExpressions.EvaluateToken` | src/template.cpp:568-711 | One token on the value stack, with its errors |
| `JinjaExpressions.ComputeExpression` | src/template.cpp:483-749 | Both loops together compute the value of the tokens |
| `JinjaMeaning.BranchOnName` | src/template.cpp:8-22 | What a branch on a name does, by kind of value: a string is true unless it is empty or "false", an int unless it is 0, an array unless it has no values, an undefined name never; floats and dictionaries stop the program |
| `JinjaMeaning.BranchOnNot` | src/template.cpp:653-667 | A branch on not x does the opposite of a branch on x and fails where that fails |
| `JinjaMeaning.IntOrder` | src/template.cpp:285-313 | Of two ints exactly one of less, equal and more holds |
| `JinjaMeaning.Equality` | src/template.cpp:270-313 | Values of different kinds are never equal, strings when their texts are, arrays and dictionaries cannot be compared; the same both ways round, and != is the opposite |
| `JinjaMeaning.Tests` | src/template.cpp:271-282 | The tests defined, none and string, on values and names |
| `JinjaMeaning.InString` | src/template.cpp:262-269 | A string is in another one if and only if it is a part of it |
| `JinjaMeaning.InDict` | src/template.cpp:262-269 | A string or name is in a dictionary if and only if it is a key |
| `JinjaMeaning.RemainderBeforeSum` | src/template.cpp:328-354 | a % b + c and a + b % c for all ints |
| `JinjaMeaning.SumBeforeComparison` | src/template.cpp:328-354 | a + b == c and a < b - c for all ints |
| `JinjaMeaning.ComparisonBeforeLogic` | src/template.cpp:328-354 | a and b < c, and a > b or c, for all ints |
| `JinjaMeaning.NotBetween` | src/template.cpp:328-354 | not a == b negates the comparison, not a or b only a |
| `JinjaMeaning.StringSums` | src/template.cpp:246-251 | Strings are added in the order in which they stand; a string and a number cannot be added |
| `JinjaMeaning.Unsupported` | src/template.cpp:246-316 | Products, quotients, sums of floats and comparisons of an int with a float fail |
| `JinjaMeaning.IntWritten` | src/template.cpp:40-48 | Reading the output of an int gives the int |
| `JinjaMeaning.DigitsRead` | src/template.cpp:40-48 | Decimal digits, without a zero in front, that read back as the number |
| `JinjaMeaning.FloatWritten` | src/template.cpp:40-48 | A float is written with six digits behind the point and is off by half of the last one at most |
| `JinjaMeaning.NotAfterMeaning` | src/template.cpp:793-801 | The order of the keys: a beginning comes first, else the smaller byte where two keys first differ |
| `JinjaMeaning.ValuesAscending` | src/template.cpp:793-801 | The values of a dictionary are taken in ascending order of their keys, each key once |
| `JinjaMeaning.LoopShows` | src/template.cpp:772-805 | A loop that shows its variable shows the values of an array from first to last; over anything but an array or a dictionary it fails |
| `JinjaMeaning.LoopShowsInOrder` | src/template.cpp:793-805 | Over a dictionary it shows the values in ascending order of their keys |
| `JinjaValues.Remainder` | src/template.cpp:258-261 | The remainder of division that truncates: it has the sign of the dividend |
| `JinjaInterpreter.ParseMeaning` | src/template.cpp:751-872 | Interpreting the flattened template is running the tree: same output, same environment, same errors |
| `JinjaInterpreter.EndOfLoop` | src/template.cpp:759-771 | The search finds exactly the endfor of its loop |
| `JinjaInterpreter.EndOfBranch` | src/template.cpp:808-829 | The search finds exactly the next branch and the endif of its if or elif |
| `JinjaTemplates.AdvanceRecord` | src/template.cpp:783-791 | What the loop record holds before each turn |
| `JinjaLoops.TurnsOfLoop` | src/template.cpp:784-801 | A loop is its turns: from the start of any turn on, what is left is that turn and the ones behind it |
| `JinjaLoops.TurnRecord` | src/template.cpp:783-801 | In every turn of a run, a body without loops and without assignments to loop, at any depth, finds the record of its turn |
| `JinjaLoops.LastInAnyRun` | src/template.cpp:783-801 | For any body, nested loops and assignments included: loop.last is right in all turns if and only if there is no turn, or there are several and each turn leaves behind a record that counts up to the size exactly if the next turn is the last |
| `JinjaLoops.LastByIndices` | src/template.cpp:783-801 | The same in numbers: the index left in the turn before the last one is one less than the size, and none left earlier is |
| `JinjaLoops.LastInRun` | src/template.cpp:783-801 | For bodies without loops and without assignments to loop: right in all turns if and only if the array has not just one value, or the dictionary is empty |
| `JinjaLoops.NestedLoop` | src/template.cpp:782-805 | Around an inner loop over any values, which may differ from turn to turn, with any body that leaves loop alone: right in all turns if and only if there is no turn, or there are several and the inner loop has size - 2 turns in the turn before the last one and in none earlier |
| `JinjaLoops.SameInnerLoop` | src/template.cpp:782-805 | With the same number of inner turns m each time, over an array of n values: if and only if n is 0, or n is 2 and m is 0 |
| `JinjaLoops.SetLoopFails` | src/template.cpp:783-789 | Setting loop to a number stops any loop that has a turn |
| `JinjaRendering.JinjaTemplate.Parse` | src/template.cpp:751-872 | The recursive interpreter changes environment and output as the interpreter function says |
| `JinjaRendering.JinjaTemplate.ParseTurnsOf` | src/template.cpp:785-801 | The turns of a loop, with the loop record and the nested interpreter |
| `JinjaRendering.JinjaTemplate.SearchEndFor` | src/template.cpp:759-770 | The counting scan for endfor |
| `JinjaRendering.JinjaTemplate.SearchEndIf` | src/template.cpp:808-828 | The counting scan for else, elif and endif |
| `JinjaRendering.JinjaTemplate.Apply` | src/template.cpp:874-879 | Applying a template renders what the tree of blocks says, or fails when the tree does |
| `WeightNames.WeightMap.GetWeightType` | src/fastllm.cpp:3912-3944 | LINEAR exactly when the key is no embedding name and has a common instance with some linear name, a star on either side standing for any string |
| `WeightNames.Matches` | src/fastllm.cpp:3917-3939 | The table loop decides whether two patterns have a common instance |
| `WeightNames.ReachMeaning` | src/fastllm.cpp:3920-3939 | The recurrence of the table holds exactly for prefixes with a common instance |
| `PackedInt8.ScaleMeaning` | include/packedint8.h:14-29 | A bfloat16 scale is accepted exactly when it is finite, not negative, and some half-precision number has its value, and becomes that number |
| `PackedInt8.RepackedValue` | include/packedint8.h:42-51 | Every weight keeps its exact value |
| `PackedInt8.RepackedInjective` | include/packedint8.h:42-51 | Different weights or scales give different output |
| `PackedInt8.RepackPackedInt8Group128ToQ8_0` | include/packedint8.h:30-52 | Accepts exactly the fitting sizes with exact scales; writes the repacked bytes, or leaves the output as it was |
| `GroupQuantization.Run` | src/fastllm.cpp:1302-1343 | After the loops every row and column, short last groups included, dequantises to within half a step of its input; nothing outside the rows changes |
| `GroupQuantization.HalfStep` | include/fastllm.h:255-314 | The config of a range quantises every number in it to within half its scale, with and without zero point |
| `GroupQuantization.GroupError` | src/fastllm.cpp:1309-1330 | A number of a group comes back within the range of the group, taken to zero, over 30 for 4 bits and over 510 for 8 bits |
| `GroupQuantization.ScaleBound` | src/fastllm.cpp:1309-1330 | The step of a group is not larger than any range around zero that holds its values asks for |
| `GroupQuantization.StoredAgain` | include/fastllm.h:299-314 | The value of a stored number is stored as that number again; what lies half a step above it as the next one |
| `GroupQuantization.ConfigSteps` | include/fastllm.h:267-297 | Scale, zero point and minimum that a range gets |
| `GroupQuantization.QuantizeGroup` | src/fastllm.cpp:1309-1330 | One group: its config is that of its least and greatest value, and only its own numbers change |
| `Int4Group32.NoOverlap` | include/fastllm.h:374-393 | Data and scales of groups lie within 18 bytes per group, apart from each other |
| `Int4Group32.NoGap` | include/fastllm.h:374-393 | And leave no gap, with a partial last block too |
| `Int4Group32.HalfScale` | src/fastllm.cpp:1672-1678 | With a scale of relative error at most 2^-8 every weight stays within half a scale, and clamping never adds more |
| `Int4Group32.WeightClose` | src/fastllm.cpp:1680-1709 | The stored nibble and the stored scale give back each weight to within half the scale |
| `Int4Group32.QuantizeRows` | src/fastllm.cpp:1680-1709 | The loops fill every row with these bytes, and every weight read back from the written array, with the scale read back for its group, is within half that scale of its source. If all 32 magnitudes of a group are at most m, its weights come back within m * (1 + 2^-8) / 14 |
| `Int4Group32.HeldClose` | src/fastllm.cpp:1680-1709 | A row that holds these bytes can be read back that closely |
| `Int4Group32.LargestWithin` | src/fastllm.cpp:1684-1689 | The magnitude that sets the scale is the largest of the group: a bound holds for it if and only if it holds for all 32 |
| `Int4Group32.ScaleSmall` | src/fastllm.cpp:1684-1692 | The stored scale is at most a seventh of any bound on the magnitudes, times 1 + 2^-8 |
| `Int4Group32.ZeroGroup` | src/fastllm.cpp:1672-1709 | A group of zeros is stored as a row of eights under the scale of zero |
| `Int4Group32.PackGroup` | src/fastllm.cpp:1701-1707 | Two weights to a byte, the first one high; no other byte changes |
| `Nvfp4Layout.NoOverlap` | include/fastllm.h:405-416 | In all three layouts parts of rows lie apart, within the bytes of the rows |
| `Nvfp4Layout.NoGap` | include/fastllm.h:405-416 | And every byte belongs to a part |
| `Nvfp4Layout.PlanarOffsets` | include/fastllm.h:405-416 | The two offset formulas are where the planar layout has weights and scales |
| `Nvfp4Layout.Shifted` | src/fastllm.cpp:658-733 | Rows further down lie further on by whole rows |
| `Nvfp4Packing.RowsBijection` | src/fastllm.cpp:687-691 | For an even number of rows crossing the gates only permutes them |
| `Nvfp4Packing.PackedAt` | src/fastllm.cpp:684-731 | Where every part of every row ends up |
| `Nvfp4Packing.ShardIsSlice` | src/fastllm.cpp:658-733 | Packing a share of the rows is the same slice of packing all of them |
| `Nvfp4Packing.WeightKept` | src/fastllm.cpp:687-716 | Where each byte of weights is found again |
| `Nvfp4Packing.Lossless` | src/fastllm.cpp:658-733 | Equal packed bytes mean equal weights, in all three layouts |
| `Nvfp4Recovery.ScaleKept` | src/fastllm.cpp:692-728 | Where the scale of each block is found again: scaleBytes[row / blockK * blocks + block], as it is in the compact layout, multiplied by the global scale of its row in the others |
| `Nvfp4Recovery.GlobalKept` | src/fastllm.cpp:692-705 | In the compact layout the global scale of each row stands in front of it |
| `Nvfp4Recovery.GlobalIndex` | src/fastllm.cpp:692-695 | That of a row is the one with index min(count - 1, (row / blockK) * count / scaleRows) |
| `Nvfp4Recovery.CompactLossless` | src/fastllm.cpp:658-733 | In the compact layout matrices that are packed alike have the same weights and scale bytes; with no more global scales than rows of scales they are the same matrix |
| `Nvfp4Recovery.GlobalUsed` | src/fastllm.cpp:692-695 | With no more global scales than rows of scales every global scale is that of some row |
| `Nvfp4Recovery.LastGlobalUnused` | src/fastllm.cpp:692-695 | With more of them the last one is that of no row and makes no difference to the packed bytes |
| `Nvfp4Recovery.PointerOffsets` | src/fastllm.cpp:699-731 | Row by row, a block has its weights where the running pointer stands and its scale behind them |
| `Nvfp4Recovery.RowFilled` | src/fastllm.cpp:812-814 | A compact row is filled up to the next multiple of four bytes |
| `Nvfp4Recovery.Counts` | src/fastllm.cpp:674-677 | Blocks, bytes and rows of scales are counted upwards |
| `Nvfp4Packing.PackCompactE4M3NVFP4Block16Rows` | src/fastllm.cpp:658-733 | Accepts exactly the valid requests and fills the destination with the packed rows, or leaves it alone |
| `FastllmFormat.RoundTrip` | src/fastllm.cpp:3078-3279 | For all types with a header, reading what was written into data of the same dims restores type, metadata and payload; of an INT4_NOZERO config all but the maximum |
| `FormatChanges.TripUnchanged` | src/fastllm.cpp:3078-3279 | Data written and read back in place is exactly what it was, for every type but INT4_NOZERO; for that one, with configs as the quantiser makes them, if and only if the zero points of all channels are whole. Configs from elsewhere are left out |
| `FormatChanges.ConfigsKept` | src/fastllm.cpp:3181-3279 | Reading INT4_NOZERO data anywhere gives the configs that were written, which the quantiser made, if and only if the zero points of all channels are whole. Configs from elsewhere are left out |
| `FormatChanges.MaximumKept` | include/fastllm.h:267-297 | A range keeps its maximum if and only if zero is a whole number of steps above the minimum |
| `FormatChanges.MaximumLost` | include/fastllm.h:267-297 | The range from -1 to 1 loses it |
| `FastllmFormat.StepFixed` | src/fastllm.cpp:3181-3279 | A config without zero point made again from minimum and scale is the settled config, which differs at most in its maximum |
| `FastllmFormat.SecondTrip` | src/fastllm.cpp:3181-3279 | What was read can be written and read again without any change |
| `FastllmFormat.ChannelStream` | src/fastllm.cpp:3122-3165 | The stream of a weight with two channels, word by word |
| `FastllmFormat.BytesMatch` | src/fastllm.cpp:3078-3179 | Exactly as many bytes are written as were announced |
| `FastllmFormat.RangeFixed` | include/fastllm.h:267-297 | A config made again from its minimum and maximum is the same config |
| `FastllmStreams.Data.ExportFastllmFormat` | src/fastllm.cpp:3122-3179 | The writer produces the stream of the format, of the announced size |
| `FastllmStreams.Data.CreateFromFastllmFormat` | src/fastllm.cpp:3181-3279 | The reader takes the stream apart, or reports the error |

## Left out

- Recordings that break `CanRecord`: as long as evictions are defined, pools and tree stay valid, but what a query returns is then only known to be a page of the pool.
- PagedCache.PagedCacheManager.GetUnusedPageIndex: picking requires `EvictionDefined`, since the program's behaviour is undefined otherwise.
- PagedCache.PagedCacheManager.Record: the order in which the two vectors list their pages afterwards is not stated; their contents are, through the invariant.
- PagedCache.PagedCacheManager.Query: the hash is a parameter of the manager; `PageHashing` models the program's own hash, and `PageRuns` what follows for queries.
- PagedCache.PagedCacheManager.SetMaxPages: the old trie, which the program leaks, leaves the modelled heap.
- PagedCache.PagedCacheManager.EvictTrieSubtree: the order in which children are visited is left open, as the program's hash map leaves it; so is the order of the pages it frees.
- Tensor storage behind the pages, and reference counts and timestamps beyond the range of their C++ types.
- GraphRewriting.OptimizeComputeGraph: `Runnable` is required, which `GraphRunnable.Testable` ensures on the untouched graph: the weights of a merged run are there, distinct and of the sizes that copying takes, and the names made for it are none of them; otherwise the program reads or writes outside its buffers, or uses entries it has just made or erased. That the rewritten graph means the same is stated for well-formed graphs only; the program rewrites others as well, such as a gate with unequal halves.
- GraphRewriting.MergeTurn: the same holds for the run of the turn.
- GraphPreservation.OptimizePreserves: Linear multiplies row by row, with an abstract product of a weight row and an input row; silu is abstract; a split is given meaning on the last axis only; other ops are abstract functions of what they read. FusedAttention and SplitLastTokenStates, types of intermediate data, and the list of nodes, which does not contain the merged outputs before `Update`, are left out.
- Tokenizers.Tokenizer.BytePairEncode: the empty input, on which the program's behaviour is undefined, inputs with `<FLM_FIX_TOKEN_` and normalisation are left out. Reading back is stated for dictionaries that agree (`TokenIds.Consistent`) and texts of bytes. Scores are reals. The id -999999 is reserved, as in the program.
- Tokenizers.Tokenizer.DecodeTokens: only the loop over the tokens; the replacements that follow it (the blank mark, characters that stand for bytes, `<|blank_`) are left out.
- RankEncoding.EncodeStretch: finding the special tokens between which stretches lie is left out, and so is what the program encodes when a token reaches across the end of a stretch; token ids must fit an int.
- UnigramEncoding.UnigramEncode: all single bytes must be tokens, so the scores of unknown bytes do not arise.
- SetSpecialTokens and the BERT, GLM and SentencePiece paths of the tokenizer.
- JinjaExpressions.ComputePrint: the trees have no unary minus, although the stack machine of the model changes signs as the program's does.
- JinjaExpressions.ComputeExpression: slices, attribute access, filters, functions, namespaces, `<=` and `>=` are left out; ints and floats are unbounded, and a remainder by zero is an error.
- JinjaRendering.JinjaTemplate.Parse: looking an unknown name up adds an empty entry to the program's environment, which only a later enumeration of the environment could show; the model does not add it. As in the program, `loop` is not restored after a nested loop. Reading past the last block is an error.
- JinjaRendering.JinjaTemplate.Apply: the blocks are those of some template tree; cutting the template text into blocks and tokens is left out.
- GroupQuantization.Run: exact real arithmetic, for 4 and 8 bits; 2-bit quantisation is left out.
- Int4Group32.WeightClose: the rounding of scales is a parameter whose relative error is at most 2^-8, which excludes scales too small for bfloat16.
- Nvfp4Packing.Lossless: in the two layouts with single-precision scales the scale of a block is multiplied by the global scale, which can lose information; the product is a parameter.
- FormatChanges.TripUnchanged: INT4_NOZERO configs that the quantiser did not make, such as those of a stream written elsewhere, are left out; so they are in `FormatChanges.ConfigsKept` and the round trips.
- FastllmFormat.RoundTrip: the maximum of an INT4_NOZERO config comes back only where `FormatChanges.ConfigsKept` says so. A stream is a list of ints, floats and payload bytes, not of raw bytes; floats are exact reals. The unversioned float types, which have no header, are left out.
- Reading and writing files, devices, kernels and the operators behind the executor, model loading, and the language bindings.
