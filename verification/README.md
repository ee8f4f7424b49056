# Verified model of the search engine's hard core

This project models the most intricate parts of FastCtx, a file-search server
written in Rust, and proves what they promise. To check it, run
`dafny verify dfyconfig.toml`.

- **Speculative ordered execution** (`CreditPool`, `OrderedWindow`,
  `OrderedProtocol`, `OrderedInvariant`, `OrderedTheorems`,
  `OrderedGuarantees`, `OrderedProgress`, `OrderedDrain`). Any number of requests, each with a
  coordinator and leaf tasks, run over two shared credit counters as a
  transition system in which every critical section is one step and every load
  and compare-and-swap of a counter is a step of its own. An inductive
  invariant gives a refinement of the plain loop, the absence of stale results,
  live waits, both concurrency bounds, the use of spare lanes, and from every
  state a way to complete every request and one back to rest with both pools full.
  The guarded window also exists as a class that updates its ring in place, proved
  against the same functions.
- **Chunked stable sort** (`StableSorting`, `IndexHeap`, `BoundedSort`). *The*
  stable sort is defined without an algorithm, shown to be unique, and reached
  by chunking, arbitrary placement and arrival, and a merge through an index
  heap whose order changes as streams are consumed.
- **Streaming decode and capture** (`Utf8`, `StreamingDecode`, `Capture`,
  `EditableSnapshot`). A UTF-8 automaton after section 4 of RFC 3629, chunk
  decoders with carries, and the classifier that may stop reading a file early:
  its answer depends on the bytes alone and no unread suffix can overturn it.
- **Exact token accounting** (`TokenCounter`, `RenderPlan`, `ResponseFit`,
  `LineTokenizer`, `BlankLines`).
  Checkpoints, a prefix trie and detail graphs count exactly the text that is
  finally assembled. The tokenizer is a parameter; what is asked of it is asked
  cut by cut, at the ends of the text and next to the line feeds of the pages
  that are actually tried. Content mode is one theorem from the widest page to
  the verified text, over a trie that every rendering extends; what holds only of
  pages that are cut well is said of those, the rest of all.
- **Paging** (`ContentSink`, `LineLayout`, `LineRanges`, `Paging`).
  Over-capture, trimming and exact retries equal one serial windowed scan;
  continuation offsets visit every entry once.
- **Burst pool, traversal merge, path codec** (`BurstPool`, `BurstDelivery`,
  `SkipReport`, `TraversalWalk`, `PathCodec`). A budget protocol over unbounded
  call sequences, a merge that does not depend on scheduling, and a
  printer/parser pair.

Parameters stand for what the model cannot see: the worker function and its
panics, comparators, the sizes reads return, arrival orders, cancellation
points, the encoding library's labels and legacy decoders, the tokenizer, the
order of keys, the schedule of walk events, and all wording. Where the source
relies on Rust's linear types (permits, tickets, leases, claims), maps record
who owns what.

`usize` is 64 bits wide; saturating and checked operations are written out.

Four findings are worth knowing.

- The skip report of a serial walk depends on the order in which failures arrive
  exactly if more than 256 distinct ones do and no single entry fills the list on
  behalf of all others (`TraversalWalk.OrderMattersExactly`); the comment beside
  the code says so of floods in general.
- A page is probed for one entry beyond the head limit unless no limit below the
  word's maximum was asked for and four times the budget, plus one, reaches that
  maximum (`Paging.ProbeIsOneBeyond`). All that can follow is that a list of 2^64 - 1
  entries, all shown on one page, is called partial (`Paging.NotesAreTruthful`).
- A relative path whose first name starts like a URI scheme is not read back
  from its display (`PathCodec.ParseDisplayRoundTrip`).
- Counting in parts is not exact on every page. Without line numbers a line of
  blanks is rendered as blanks; behind another line, and appended before its line
  feed, it closes a piece that the whole text does not have, if the tokenizer
  joins such blanks and feeds. The probe then counts one piece too many for each
  such line; with a token for each piece the page ends as a count mismatch instead
  of being shown (`BlankLines.BlankPageFails`). For these tokenizers a probe is
  exact however pieces are counted if and only if its page has no such cut
  (`BlankLines.ProbeIsExactIffNoBadCut`), and a text may be cut anywhere next to
  its line feeds if and only if no line of blanks behind another line is followed
  by a line feed (`LineTokenizers.CutsWellIff`). What is shown was counted in full
  and fits in any case (`ResponseFit.FormatContent`).

## Model

| member | source | states |
|---|---|---|
| `OrderedTheorems.ExecutionsAreGood` | src/ordered_window.rs:45-106 | safety over whole runs: in every state of every finite interleaving of coordinators, leaves, retirements, cancellations, releases and bystanders, ownership, slots, leases, permits and deliveries are consistent |
| `OrderedInvariant.StepKeepsGood` | src/ordered_window.rs:45-106 | each of the 31 kinds of step keeps that invariant |
| `OrderedTheorems.StepRefinesLoop` | src/ordered_window.rs:71-104 | a step of the whole system leaves a given request's loop alone or is exactly one step of the plain `for` loop: the next candidate with its own value, or an ending the loop may have |
| `OrderedTheorems.EndingsHaveCauses` | src/ordered_window.rs:71-104 | for every step: a loop completes only at its top with everything handed out, is broken off exactly by a reply that breaks, and ends as cancelled only if cancelled; nothing else cancels; the checks at the top, at the frontier, after an inline computation and before `consume` act on a cancellation |
| `OrderedTheorems.DisablingHasCause` | src/file_executor.rs:433-480 | speculation is switched off only by a failed spawn or a panicking leaf, and by them always |
| `OrderedTheorems.ArrivesAfresh` | src/ordered_window.rs:45-70 | a request arrives with an open empty window, nothing handed out and nothing cancelled; with two lanes and two candidates index 1 may be speculated on |
| `OrderedTheorems.CanAlwaysBeCancelled` | src/ordered_window.rs:71-104 | a request can be cancelled at any point of any run, and that does nothing else by itself |
| `OrderedGuarantees.DeliveryIsSequential` | src/ordered_window.rs:71-104 | at every point of every run `consume` was given candidate after candidate from 0, with no gap, repeat or reordering, each with the value its worker computed or, if the worker panicked there, what the panic is translated to; all of them when the request completed; a request ended as cancelled was cancelled; a speculated value was delivered under the generation it was computed for |
| `OrderedGuarantees.DeliveriesOnlyGrow` | src/ordered_window.rs:71-104 | along a run the deliveries of a request only grow, and an ended loop stays as it ended |
| `OrderedGuarantees.CancelledIsHandedNothing` | src/ordered_window.rs:71-104 | once a request is cancelled, `consume` is given nothing more for the rest of the run |
| `OrderedGuarantees.StaleLeafIsInert` | src/ordered_window.rs:384-402 | no step of a leaf whose generation was retired changes the window, even if its ring position or index was claimed again |
| `OrderedGuarantees.RunningSlotHasOneLease` | src/ordered_window.rs:447-555 | every running slot has exactly one live armed lease |
| `OrderedGuarantees.OwnersDiffer` | src/ordered_window.rs:447-555 | two occupied slots never share a permit |
| `OrderedGuarantees.AwaitedLeafCanAct` | src/ordered_window.rs:340-373 | a waiting coordinator waits for a lease that can still abandon (the frontier becomes vacant) and, once finished, publish (the frontier becomes ready) |
| `OrderedProgress.AlwaysFinishable` | src/ordered_window.rs:71-104 | from every reachable state every request can be brought to its end in finitely many steps of its coordinator and the leaf it waits for: no deadlock; and one that was not cancelled or broken off can be completed with every candidate's own result handed out in order |
| `OrderedProgress.SomeStepHelps` | src/ordered_window.rs:340-373 | a request that has not ended has an enabled step that brings it strictly closer to its end |
| `OrderedProgress.SpareLaneIsUsed` | src/ordered_window.rs:108-216 | spare lanes are used: whenever speculation is on and something may be speculated on, and a ticket and a credit are free, the coordinator at the top of its loop and a new leaf can bring that leaf to work on the lowest free index |
| `OrderedProgress.LeafGoesToWork` | src/ordered_window.rs:170-216 | a leaf that finds a credit while its generation is alive gets to work in four steps, on the lowest free index |
| `OrderedDrain.AlwaysReturnsToRest` | src/ordered_window.rs:71-216 | from every reachable state, whatever is in flight, a finite run ends every request and every leaf and gives back every credit and every ticket: nothing leaks and nothing can get stuck |
| `OrderedDrain.LeafCanLeave` | src/ordered_window.rs:157-213 | every leaf can leave from wherever it is, without waiting for anybody |
| `OrderedGuarantees.LiveSlotsBound` | src/ordered_window.rs:328-337 | live slots never exceed parallelism - 1, although the claim range alone would admit one more; it follows from credit ownership |
| `OrderedGuarantees.BreakExaminesLittle` | src/ordered_window.rs:300-338 | nothing at or beyond the frontier plus the width is ever examined, so a break at k examines nothing at or beyond k + width |
| `OrderedGuarantees.LanesBound` | README.md:127 | with R active requests at most R + parallelism - 1 lanes are inside the worker |
| `OrderedGuarantees.QuiescentPoolsAreFull` | src/file_executor.rs:40-61 | when every request has ended and every leaf has left, both pools are full again: nothing leaks |
| `OrderedWindow.ClaimKeepsInv` | src/ordered_window.rs:300-338 | a claim finds nothing exactly if the window is closed, of another generation, or holds no vacant index strictly between the frontier and frontier + width below the candidates; else it takes the lowest such index and changes its slot and the live count only |
| `OrderedWindow.VacanciesMeanClaimable` | src/ordered_window.rs:285-298 | the fill snapshot reports something exactly when a claim under its generation would succeed, and then the number of indices that could be claimed |
| `OrderedWindow.PublishKeepsInv` | src/ordered_window.rs:490-527 | publishing stores the envelope in the lease's own slot, and touches nothing else, if and only if the slot matches index, generation and runner |
| `OrderedWindow.DropLeaseKeepsInv` | src/ordered_window.rs:530-555 | dropping a lease clears its own slot and touches nothing else if the slot matches, else nothing; the live count never underflows |
| `OrderedWindow.TakeFrontierKeepsInv` | src/ordered_window.rs:340-373 | the frontier is taken, awaited or computed inline; inline happens only when its slot is vacant |
| `OrderedWindow.AdvanceKeepsInv` | src/ordered_window.rs:375-382 | advancing past a vacant frontier moves it by one and nothing else, keeps the invariant and cannot saturate |
| `OrderedWindow.RetireKeepsInv` | src/ordered_window.rs:384-402 | retirement empties the window, moves to the next generation with the requested acceptance, keeps frontier and candidates, and fails closed exactly at the counter's maximum |
| `OrderedWindow.FreshInv` | src/ordered_window.rs:250-275 | a new window satisfies the invariant |
| `OrderedWindow.OccupiedIsOwn` | src/ordered_window.rs:404-424 | an occupied ring position inside the window belongs to the index asked for: no two indices of one window share a position |
| `OrderedWindow.OccupiedIsCardinality` | src/ordered_window.rs:210-220 | the live count is the number of occupied ring positions |
| `OrderedWindow.SpecState.constructor` | src/ordered_window.rs:250-275 | the mutable window starts as the specified one |
| `OrderedWindow.SpecState.Slot` | src/ordered_window.rs:404-415 | the in-place lookup is the specified one |
| `OrderedWindow.SpecState.SnapshotVacancies` | src/ordered_window.rs:285-298 | the counting loop computes the specified snapshot |
| `OrderedWindow.SpecState.TryClaim` | src/ordered_window.rs:300-338 | the in-place claim has exactly the specified effect and result |
| `OrderedWindow.SpecState.PublishLease` | src/ordered_window.rs:490-527 | the in-place publish has exactly the specified effect and result |
| `OrderedWindow.SpecState.ClearLease` | src/ordered_window.rs:530-555 | the in-place lease drop has exactly the specified effect |
| `OrderedWindow.SpecState.TakeFrontierSlot` | src/ordered_window.rs:340-373 | one pass of the frontier loop has exactly the specified effect and result |
| `OrderedWindow.SpecState.AdvanceReduce` | src/ordered_window.rs:375-382 | advancing changes the frontier and nothing else |
| `OrderedWindow.SpecState.RetireGeneration` | src/ordered_window.rs:384-402 | in-place retirement has exactly the specified effect and result |
| `CreditPool.TakeConserves` | src/file_executor.rs:40-56 | a successful compare-and-swap, with any steps of other threads since its load, keeps available + live permits = capacity and creates a fresh permit |
| `CreditPool.ReleaseConserves` | src/file_executor.rs:58-61 | a release keeps the sum and never exceeds the capacity |
| `CreditPool.RehomeConserves` | src/file_executor.rs:170-185 | moving a permit from lease to envelope keeps the sum |
| `CreditPool.RehomeAllConserves` | src/ordered_window.rs:384-402 | dropping every envelope of a retired window keeps the sum |
| `BoundedSort.SortCancelable` | src/bounded_sort.rs:62-215 | for any total preorder, placement of chunks, arrival order and cancellation pattern the result is the stable sort of the input or an error with a cause; the invariant error is unreachable; a cancellation seen is always reported |
| `BoundedSort.MergeSortedChunks` | src/bounded_sort.rs:232-279 | merging sorted chunks gives the stable sort of their concatenation; cancelled exactly when a check saw it; the invariant error exactly on length overflow |
| `BoundedSort.TakeFront` | src/bounded_sort.rs:256-276 | one turn of the merge keeps the heap ordered while a stream front changes and neither heap operation can fail |
| `BoundedSort.BuildHeap` | src/bounded_sort.rs:250-255 | the heap starts ordered and holds exactly the nonempty streams |
| `BoundedSort.TotalLength` | src/bounded_sort.rs:245-248 | the checked total is the length of the concatenation or an overflow |
| `BoundedSort.MergeStep` | src/bounded_sort.rs:256-276 | taking the least front keeps the merged positions an ascending, tie-preserving prefix |
| `BoundedSort.MergeDone` | src/bounded_sort.rs:256-279 | when every chunk is used up the output is the stable sort of the concatenation |
| `BoundedSort.SplitChunks` | src/bounded_sort.rs:86-94 | chunking loses and reorders nothing: chunks of 4096 items and a last one of at most as many, none empty |
| `BoundedSort.PlaceChunks` | src/bounded_sort.rs:106-158 | every chunk is counted once, inline or spawned |
| `BoundedSort.SortInlineChunks` | src/bounded_sort.rs:161-178 | every inline chunk is sorted into its own place |
| `BoundedSort.SortInlineChunk` | src/bounded_sort.rs:217-230 | a chunk is stably sorted unless a check before or after sees a cancellation |
| `BoundedSort.ReceiveChunks` | src/bounded_sort.rs:179-201 | spawned chunks land in their own places in any arrival order; a lost worker is reported, never a partial result |
| `BoundedSort.SortedPieces` | src/bounded_sort.rs:62-215 | stably sorting the concatenation of stably sorted chunks is stably sorting the input |
| `IndexHeaps.IndexHeap.Push` | src/bounded_sort.rs:281-301 | sift-up keeps the heap order and the set of nodes; it fails only if a node has no front |
| `IndexHeaps.IndexHeap.Pop` | src/bounded_sort.rs:303-335 | sift-down keeps the heap order, removes exactly the root; it fails only on an empty heap or a node without a front |
| `IndexHeaps.IndexHeap.SmallerChild` | src/bounded_sort.rs:317-325 | the chosen child stands above its sibling |
| `IndexHeaps.RootIsLeast` | src/bounded_sort.rs:303-335 | the root of an ordered heap precedes every node by front item, then stream index |
| `IndexHeaps.FrontChangeKeepsHeap` | src/bounded_sort.rs:264-272 | consuming a stream that is not in the heap leaves the heap ordered |
| `IndexHeaps.AboveTransitive` | src/bounded_sort.rs:337-356 | the front order with its index tie-break is transitive |
| `StableSorting.StableSortUnique` | src/bounded_sort.rs:62-215 | there is only one stable sort of a sequence |
| `StableSorting.StableSortIsStable` | src/bounded_sort.rs:217-230 | the sort used for a chunk is a bijection of positions ordered by the comparator and then by position |
| `StableSorting.StableSortIsPermutation` | src/bounded_sort.rs:62-215 | a stable sort holds exactly the items it was given |
| `StableSorting.SortAfterRearranging` | src/bounded_sort.rs:62-215 | sorting a tie-preserving rearrangement is sorting the original |
| `Capture.CaptureReader` | src/file_snapshot.rs:597-681 | the capture's answer is a function of the file's bytes alone, whatever sizes the reads return |
| `Capture.AutomaticCapture` | src/file_snapshot.rs:466-490 | without mark and label: a capture ends with the NUL proof exactly if a 0 stands in the first 8192 bytes; else with the magic proof exactly if 8192 bytes are there, the bytes are no UTF-8 and a known signature starts the file; else with a conflict, naming its row, exactly if 8192 bytes are there and 32 bytes of UTF-8, 8 of them not ASCII, break off and no fallback could decode the file; and is complete in every other case |
| `Capture.MarkedCapture` | src/file_snapshot.rs:452-465 | with a mark, which of the five it is decides: behind it a NUL rules out UTF-8, and what cannot be decoded is rejected, for UTF-8 from 8192 bytes on; else the capture is complete |
| `Capture.ExplicitCapture` | src/file_snapshot.rs:444-451 | with a label the capture is rejected exactly if its decoder fails behind its own mark, and an unknown label is reported |
| `Capture.OtherCaptures` | src/file_snapshot.rs:350-405 | fewer than four bytes are always complete, and a fallback that is no encoding is reported |
| `Capture.ReadAndFeed` | src/file_snapshot.rs:607-672 | one read of either loop stops early only with the answer of the whole file |
| `Capture.VerdictIsFinal` | src/file_snapshot.rs:316-321 | once a prefix yields a proof, or an unknown label, every extension yields the same |
| `Capture.RejectionIsSound` | src/file_snapshot.rs:19-33 | a rejection is right: the NUL or the binary magic lies in the frozen probe, and whatever follows, the rejected decoders fail on the whole file |
| `Capture.CaptureClassifier.constructor` | src/file_snapshot.rs:323-330 | a new classifier has seen nothing |
| `Capture.CaptureClassifier.Feed` | src/file_snapshot.rs:332-348 | the incremental answer is the verdict on all bytes fed so far, however divided |
| `Capture.CaptureClassifier.Initialize` | src/file_snapshot.rs:350-405 | the mode is settled by the first four or more bytes and starts in the state for them; an unknown label is reported |
| `Capture.CaptureClassifier.FeedInitialized` | src/file_snapshot.rs:407-434 | every decoder flag stays that of all bytes seen |
| `Capture.CaptureClassifier.FinishEof` | src/file_snapshot.rs:436-440 | end of file adds no proof of its own |
| `Capture.ProofIsVerdict` | src/file_snapshot.rs:442-492 | the proof read off the classifier's flags is the verdict on the bytes |
| `Capture.FeedValidator` | src/encoding.rs:725-740 | the strict validator's sticky flag says whether any continuation can still decode |
| `Capture.StartValidator` | src/encoding.rs:717-722 | a validator started on some bytes is in the state after them |
| `Capture.MarksAreSettled` | src/encoding.rs:468-510 | four bytes settle every byte-order mark, and automatic mode never has one to strip |
| `Capture.MalformedIsPermanent` | src/encoding.rs:711-740 | malformed input stays malformed and never decodes |
| `Capture.AutomaticVerdictIsFinal` | src/file_snapshot.rs:466-490 | the automatic-mode proof is final because a conflict implies malformed UTF-8 and the probe is frozen |
| `Capture.BomVerdictIsFinal` | src/file_snapshot.rs:452-465 | the BOM-mode proof is final |
| `StreamingDecode.DecodeStream` | src/encoding.rs:804-833 | decoding over any read sizes gives the same text as one-shot decoding, or fails exactly when that fails |
| `StreamingDecode.DecodeUtf8Chunk` | src/encoding.rs:854-873 | a UTF-8 chunk yields the characters that have ended and carries the one that has not |
| `StreamingDecode.DecodeUtf32Chunk` | src/encoding.rs:901-929 | a UTF-32 chunk yields its complete units or fails if one is not a scalar value |
| `StreamingDecode.DecodeChunk` | src/encoding.rs:804-833 | the chunk decoder of either kind behaves so |
| `StreamingDecode.DecodeIsInverse` | src/encoding.rs:233-272 | decoding succeeds exactly on encodings, and re-encoding reproduces the bytes |
| `StreamingDecode.CarryIsEnough` | src/encoding.rs:854-873 | only the carry matters for what comes next |
| `StreamingDecode.CarryIsShort` | src/encoding.rs:854-873 | the carry is at most three bytes, for UTF-8 always a proper prefix of some character, and empty exactly when the input could end here |
| `StreamingDecode.HopelessIsPermanent` | src/encoding.rs:711-740 | what the decoder refuses, no continuation can repair |
| `StreamingDecode.UnitsOfAppend` | src/encoding.rs:990-1005 | UTF-32 decoding splits at unit boundaries |
| `StreamingDecode.Utf8PrefixScanner.constructor` | src/encoding.rs:589-596 | a new scanner has seen nothing |
| `StreamingDecode.Utf8PrefixScanner.Push` | src/encoding.rs:598-628 | the scanner reports the conflict offset of everything pushed so far, for every chunking, and its evidence counts are those of the valid prefix, after a conflict too |
| `StreamingDecode.Utf8PrefixScanner.Finish` | src/encoding.rs:630-643 | at the end of the file a conflict is reported exactly if the bytes pushed end inside a character behind a strong UTF-8 prefix |
| `StreamingDecode.Utf8PrefixScanner.ObserveValid` | src/encoding.rs:645-650 | evidence counts grow by bytes and non-ASCII bytes |
| `StreamingDecode.ConflictIsPermanent` | src/encoding.rs:598-628 | a conflict once found is the conflict of every continuation |
| `StreamingDecode.ConflictIs` | src/encoding.rs:598-643 | the conflict row is that of the first byte behind at least 32 bytes of UTF-8 text, 8 of them outside ASCII, where something stands that cannot start a character or, at the end of the file, only starts one; in all other cases there is none |
| `EditableSnapshot.DecodeEditableSnapshot` | src/encoding.rs:194-230 | text is handed out only if its pieces re-encode to exactly the file behind the mark; for UTF-8 and UTF-32 the check never fails on a file that decodes |
| `EditableSnapshot.DecodeEditable` | src/encoding.rs:194-230 | the same behind the mark |
| `EditableSnapshot.NextCharBoundary` | src/encoding.rs:285-300 | the cut makes progress and is the last character boundary within reach, or the end of one longer character |
| `EditableSnapshot.CutAtBoundary` | src/encoding.rs:285-300 | valid text cut at a boundary is two valid texts that together are the whole |
| `EditableSnapshot.EncodeTextAppend` | src/encoding.rs:233-272 | encoding is piecewise: a concatenation encodes to the concatenated encodings |
| `EditableSnapshot.PieceAdvances` | src/encoding.rs:201-222 | for UTF-8 and UTF-32 the next piece always matches the file |
| `Utf8.EncodingIsComplete` | src/encoding.rs:854-873 | every scalar value's encoding (section 4 of RFC 3629) is recognised, whatever follows, as that value |
| `Utf8.CharOfEncodes` | src/encoding.rs:854-873 | re-encoding a recognised character gives its bytes back |
| `Utf8.IncompleteIsPrefix` | src/encoding.rs:854-873 | an incomplete sequence is exactly a proper nonempty prefix of some character's encoding |
| `Utf8.CleanIsEncoded` | src/encoding.rs:854-873 | a scan is clean exactly on concatenated encodings and tells which |
| `Utf8.ScanIsExact` | src/encoding.rs:854-873 | the valid prefix holds exactly the reported characters and the scan stops where it must |
| `Utf8.ScanOfAppend` | src/encoding.rs:854-873 | after appending, only what was cut off needs to be scanned again |
| `TokenCounter.CountWithSuffixIsExact` | src/budget.rs:513-526 | committed tokens plus the count of tail and suffix equal the full count of the whole text, if the text may be cut there |
| `TokenCounter.CountWithSuffixIsExactIff` | src/budget.rs:513-526 | for any tokenizer and any text: that count is exact however pieces are counted if and only if re-splitting the tail with the suffix gives the pieces of the whole, in any order |
| `TokenCounter.CountedBehindCounts` | src/budget.rs:513-526 | behind any open prefix, exactly the closed pieces and those of tail and suffix are counted |
| `TokenCounter.SumsAgree` | src/budget.rs:541-560 | two lists of pieces have the same sum for all counts if and only if they hold the same pieces |
| `TokenCounter.CountedBehindIsExact` | src/budget.rs:513-526 | counting behind a checkpoint gives the full count, with overflow the only failure of a plain tokenizer |
| `TokenCounter.CheckpointOfAppend` | src/budget.rs:468-502 | the next checkpoint depends on the previous one and the fragment only |
| `TokenCounter.CommittedGrows` | src/budget.rs:468-502 | committed tokens only grow and never exceed the full count |
| `TokenCounter.AppendAll` | src/budget.rs:452-502 | after any sequence of appends that cut the text well the state is that of the concatenation; a plain tokenizer fails only on overflow |
| `TokenCounter.ExactPrefixCounter.constructor` | src/budget.rs:452-458 | a new counter stands for the empty text |
| `TokenCounter.ExactPrefixCounter.FromCheckpoint` | src/budget.rs:460-465 | a restored counter stands for the checkpoint's prefix |
| `TokenCounter.ExactPrefixCounter.Append` | src/budget.rs:468-502 | for any tokenizer, appending has the specified effect and failure; at a good cut the state stays that of the whole text |
| `TokenCounter.AppendedIsExact` | src/budget.rs:468-502 | the specified effect of an append is the checkpoint of the longer text, or an overflow of its committed tokens |
| `TokenCounter.AppendedCounts` | src/budget.rs:468-502 | for any tokenizer, an append counts exactly the pieces it closes, and a plain one fails only if those overflow |
| `TokenCounter.CountWithSuffix` | src/budget.rs:513-526 | the method computes the specified count behind a checkpoint |
| `TokenCounter.CountExactPieces` | src/budget.rs:541-560 | piecewise counting gives the full count, or overflow, or a normalization error |
| `RenderPlan.LineProbeIsExact` | src/render_plan.rs:109-127 | a line probe counts exactly the text that finishing the same selection assembles |
| `RenderPlan.LineProbeCounts` | src/render_plan.rs:109-127 | for any tokenizer, a line probe counts exactly the pieces of its parts |
| `RenderPlan.ProbeIsExactIff` | src/render_plan.rs:109-127 | for any tokenizer, a probe is exact however pieces are counted if and only if the pieces of its parts are those of its text |
| `RenderPlan.TailProbeIsExact` | src/render_plan.rs:364-383 | a detail probe counts body, fixed notes, shown details and tail as one text |
| `RenderPlan.TailProbeCounts` | src/render_plan.rs:364-383 | for any tokenizer, a detail probe counts exactly the pieces of body, notes and tail as they are appended |
| `RenderPlan.NewLineGraph` | src/render_plan.rs:74-95 | every checkpoint describes its own joined prefix; a plain tokenizer fails only on token overflow of the whole |
| `RenderPlan.StateIsExact` | src/render_plan.rs:74-95 | appending line feeds and lines one by one reaches the checkpoint of the joined text, or fails only because the whole overflows |
| `RenderPlan.ProbeLines` | src/render_plan.rs:109-127 | the method computes the specified probe |
| `RenderPlan.FinishLines` | src/render_plan.rs:130-187 | finishing with another number than the full count reports both; with the probe's count it cannot, and is over budget only if the count is; whatever the tokenizer, what is finished was counted in full and fits |
| `RenderPlan.NewDetailGraph` | src/render_plan.rs:334-361 | for any tokenizer the graph is the specified one; where the text may be cut, every checkpoint describes body, fixed notes and that many details, or the whole overflows |
| `RenderPlan.DetailGraphIsExact` | src/render_plan.rs:334-361 | the specified graph is exact where the text may be cut |
| `RenderPlan.AppendNoteLine` | src/render_plan.rs:386-400 | for any tokenizer a note is appended behind the right separator with the specified effect; where the text may be cut the state stays that of the text |
| `RenderPlan.ProbeTail` | src/render_plan.rs:364-383 | the method computes the specified probe |
| `RenderPlan.SharedLineRenderGraph.constructor` | src/render_plan.rs:213-221 | a new trie holds the empty view |
| `RenderPlan.SharedLineRenderGraph.PrepareView` | src/render_plan.rs:225-258 | for any tokenizer, the view is the one that a graph without cached prefixes would prepare; earlier nodes keep their meaning |
| `RenderPlan.SharedLineRenderGraph.AddChild` | src/render_plan.rs:236-251 | a new trie node stands for its parent's path plus one line |
| `RenderPlan.ProbeView` | src/render_plan.rs:260-272 | the method computes the specified probe |
| `RenderPlan.ViewProbeIsExact` | src/render_plan.rs:260-272 | a view probe counts exactly the text that finishing the view assembles |
| `RenderPlan.ViewIsExact` | src/render_plan.rs:225-258 | a view's checkpoint describes its own joined lines, or preparing it fails only because they overflow |
| `RenderPlan.FinishView` | src/render_plan.rs:274-320 | finishing a view with another number than the full count reports both; with the probe's count it cannot; whatever the tokenizer, what is finished was counted in full and fits |
| `RenderPlan.RenderContinuation` | src/render_plan.rs:402-441 | the suffix builders produce separator and joined lines |
| `RenderPlan.AssembleText` | src/render_plan.rs:144-163 | the pushed text is body, blank line, notes |
| `RenderPlan.JoinedPrefix` | src/render_plan.rs:84-92 | every checkpoint's text is a prefix of the whole body |
| `RenderPlan.ContinuationSplits` | src/render_plan.rs:402-423 | notes appended in two goes give the same text as in one |
| `ResponseFit.ReplayCompatBinaryProbes` | src/grep_tool.rs:1211-1233 | the probe loop terminates without underflow in the specified order, returns its initial value or a passing probe, has tried the lowest value before giving up, and returns the largest feasible value when feasibility is downward closed |
| `ResponseFit.ReplayedFacts` | src/grep_tool.rs:1211-1233 | the specified probe order has those properties for every probe and every range |
| `ResponseFit.SelectBodyPrefix` | src/grep_tool.rs:1235-1260 | for any tokenizer the selected prefix was probed to fit with its baseline notes, all entries are selected if they were, and the largest such number when fitting is downward closed; nothing is selected only if neither one nor all entries fit; failures are honest, and where pages may be cut mean that some page cannot be counted or a note has the wrong shape |
| `ResponseFit.SelectGrepNotes` | src/grep_tool.rs:1326-1389 | for any tokenizer the selected notes were probed to fit and failures are honest; where every text may be cut they are priced at exactly the final text, giving up means the page without details does not fit, all details are shown if they fit, and the largest fitting number when fitting is downward closed |
| `ResponseFit.SelectionIsExact` | src/grep_tool.rs:1330-1389 | the specified selection has those properties where every text it counts may be cut |
| `ResponseFit.DetailsLargest` | src/grep_tool.rs:1361-1383 | the detail search finds the largest fitting number when fitting is downward closed |
| `ResponseFit.FinishGrepGraph` | src/grep_tool.rs:1283-1302 | a finished page was counted in full and fits, for any tokenizer; a failure is honest or a miscount, and where the page may be cut no miscount, over-budget render or invalid prefix occurs; the answer is that for a view of the same lines |
| `ResponseFit.SizedBodyFits` | src/grep_tool.rs:1262-1281 | a body sized with zero details always leaves room for its own baseline notes |
| `ResponseFit.FormatGrepLines` | src/grep_tool.rs:1262-1281 | for any tokenizer a text shows the sized number of entries, counted in full and within the budget; all entries are sized if they were probed to fit, and the most when fitting is downward closed; without fixed notes, or where pages may be cut, once a number was sized the page is never too small, and too small means exactly that none was; a failure is honest or a miscount of the sized page |
| `ResponseFit.FinishContentView` | src/grep_tool.rs:1304-1319 | for any tokenizer a text was counted in full and fits, and a failure is honest or names two different counts, the second being the full count of a page with some selection of notes; where the page may be cut no such miscount occurs and nothing means it does not fit |
| `ResponseFit.FormatContent` | src/grep_tool.rs:1468-1525 | content mode as a whole, for any tokenizer: a text shows some tried rendering, counted in full and within the budget; if the full page was probed to fit it is the one that is shown, and the most entries are when fitting is downward closed; a failure is honest or a miscount of a tried page; where every tried page may be cut there is no miscount and too small is said exactly when the search found no page |
| `ResponseFit.FitLargestContent` | src/grep_tool.rs:1548-1559 | the search over a shared, growing trie answers as the specified one over independent renderings |
| `ResponseFit.LargestFacts` | src/grep_tool.rs:1548-1559 | all entries if they fit, else the probe search; gives up only after one and all entries failed; the largest count when fitting is downward closed |
| `ResponseFit.RenderWithDegradation` | src/grep_tool.rs:1561-1610 | the ladder over the trie answers as the specified one |
| `ResponseFit.DegradedFacts` | src/grep_tool.rs:1561-1610 | full context if it fits, else as much as fits, else as wide a match window as fits, the widest one where every narrower one also fits; nothing only if full context, no context and the narrowest window all fail; every candidate is a rendering that passed its probe |
| `ResponseFit.SearchPages` | src/grep_tool.rs:1211-1233 | the probe loop over pages that share the trie follows the specified order |
| `ResponseFit.RenderContentPage` | src/grep_tool.rs:1573-1596 | one rendering gives the same answer whatever was rendered before it |
| `ResponseFit.CandidateFits` | src/grep_tool.rs:1585-1596 | an accepted rendering leaves room for its own baseline notes |
| `ResponseFit.BaselineReprobed` | src/grep_tool.rs:1345-1359 | without fixed notes, a view whose page was probed to fit never ends as too small, wherever it is cut |
| `ResponseFit.LargestArises` | src/grep_tool.rs:1548-1610 | whatever the search answers, if anything, is the outcome of one rendering it may try |
| `ResponseFit.DetailProbeIsExact` | src/grep_tool.rs:1369-1383 | each detail probe prices the page it stands for |
| `ResponseFit.FinishWithSkips` | src/glob_tool.rs:435-489 | for any tokenizer a text was counted in full and fits; the binary search gives up only after the page without details was itself probed and refused, and finds the largest fitting number of details when fitting is downward closed; a failure is honest or a miscount, the latter only where the page may not be cut |
| `ResponseFit.FormatMatches` | src/glob_tool.rs:403-433 | the largest number of entries that was probed to fit without details is shown; too small means exactly that no number was; no monotonicity and no law of the tokenizer is assumed |
| `ResponseFit.GlobProbeIsExact` | src/glob_tool.rs:446-454 | each glob probe prices the page it stands for, if the page may be cut where it is |
| `ResponseFit.WithSkipsSucceeds` | src/skip_report.rs:68-78 | folding a skip clause fails only for a note that does not end in `.)`; otherwise the note is kept, then come `; `, the clause and `.)` |
| `ResponseFit.ShownTextEnds` | src/grep_tool.rs:1147-1207 | a text shown by grep ends in its terminal, with the clause for exactly the number of details it shows |
| `ResponseFit.GlobTextEnds` | src/glob_tool.rs:435-489 | so does a text shown by glob |
| `LineTokenizers.CutsWellIff` | src/budget.rs:448-450 | for a tokenizer that obeys the blank-line law, a text may be counted in parts if and only if no line of blanks behind another line is followed by a line feed; the condition is on characters alone |
| `LineTokenizers.ObeysLaw` | src/budget.rs:448-450 | for every classification of characters there is a lossless tokenizer that obeys the law, so the law is no contradiction |
| `LineTokenizers.CutCounts` | src/budget.rs:468-502 | for these tokenizers, behind any open end, a bad cut counts exactly one piece too many and any other cut none |
| `BlankLines.ProbeExceeds` | src/render_plan.rs:364-383 | for these tokenizers, a probe counts as many pieces too many as its page has bad cuts, and exactly those of its text if it has none |
| `BlankLines.ProbeIsExactIffNoBadCut` | src/render_plan.rs:364-383 | a probe is exact however pieces are counted if and only if its page has no bad cut |
| `BlankLines.ReopensIffBlankLine` | src/grep_tool.rs:2181-2187 | a body ends where a cut would be bad exactly if its last line is blanks and the line before does not take its line feed |
| `BlankLines.ViewIsShownIffNoBadCut` | src/grep_tool.rs:1304-1319 | with one token per piece, a view with selected notes is shown if and only if its page has no bad cut; otherwise a mismatch is reported whose counts differ by the bad cuts |
| `BlankLines.FullPageIsShownIffNoBadCut` | src/grep_tool.rs:1468-1530 | the same for the response in content mode to a full page without further notes whose probe fits |
| `BlankLines.BlankLineIsMiscounted` | src/render_plan.rs:130-187 | the lines `a`, one blank, and nothing, appended in turn, are probed at 3 tokens; the text has 2 and its finish reports the mismatch |
| `BlankLines.BlankPageFails` | src/grep_tool.rs:1468-1530 | a page with a line of blanks in its context, without line numbers, ends in content mode as a mismatch by one although it would fit |
| `ContentSinks.SearchFile` | src/grep_sink.rs:698-789 | a search through skip s and limit m >= 1 selects exactly all[s..s+m] and has seen exactly min(T, s+m) entries, in line and in occurrence mode |
| `ContentSinks.EntriesAre` | src/grep_sink.rs:564-607 | the entries of a file are its matching lines, once each, or every match of every line, and nothing else |
| `ContentSinks.EntriesAscend` | src/grep_sink.rs:564-607 | they come in order of lines and matches, each one once |
| `ContentSinks.ContentSink.constructor` | src/grep_sink.rs:468-494 | a new sink has met nothing |
| `ContentSinks.ContentSink.SelectLine` | src/grep_sink.rs:564-587 | a line counts once, however many matches it holds |
| `ContentSinks.ContentSink.Meet` | src/grep_sink.rs:589-607 | an entry is selected exactly if it lies in the window |
| `ContentSinks.ContentSink.Matched` | src/grep_sink.rs:698-789 | one callback meets its entries in order, until the limit is reached |
| `LineLayouts.NewLayout` | src/grep_sink.rs:986-1025 | the lines cut the bytes in order, one feed each, and contents stop before LF or CR LF |
| `LineLayouts.InsideMeansFewer` | src/grep_sink.rs:1135-1138 | an offset lies before a line's end exactly if at most that many feeds precede it |
| `LineLayouts.Advance` | src/grep_sink.rs:1027-1045 | a forward cursor that is not past the line stops at the line of the offset |
| `LineLayouts.OccurrenceCursor.Locate` | src/grep_sink.rs:1027-1045 | a match is located at the lines of its first and last byte |
| `LineLayouts.LocateAll` | src/grep_sink.rs:698-789 | every match of a callback is located right although the cursors never move back |
| `LineRanges.MergeRanges` | src/grep_tool.rs:2103-2116 | merging yields ascending ranges with gaps that hold exactly the same lines |
| `LineRanges.RangesContain` | src/grep_tool.rs:2118-2123 | the partition search answers membership exactly |
| `LineRanges.LineIntervals.constructor` | src/grep_sink.rs:1102-1105 | new intervals hold nothing |
| `LineRanges.LineIntervals.Insert` | src/grep_sink.rs:1107-1116 | inserting in order of starts keeps the intervals separated and adds exactly the new lines |
| `LineRanges.LineIntervals.Contains` | src/grep_sink.rs:1118-1126 | with a cursor that only moves forward, ascending questions are answered exactly |
| `LineRanges.ExtendedCovers` | src/grep_sink.rs:1107-1116 | absorbing or appending a range adds exactly its lines |
| `LineRanges.FirstCandidateDecides` | src/grep_tool.rs:2118-2123 | the first range that does not end before a line decides membership |
| `Paging.PagedScan` | src/grep_tool.rs:599-743 | over-capture plus trimming gives all[offset..min(offset+probe,total)], min(total, offset+probe) entries seen and the matching completeness flag, whichever files took an exact retry; it fails exactly when, before the page is full, a file is fatal, its retry is, or it is a lone target that cannot be searched, with the message of the first such file |
| `Paging.SerialIsSlice` | src/grep_tool.rs:571-578 | the serial windowed scan returns the same slice and sees the same entries |
| `Paging.AllOfGives` | src/grep_tool.rs:625-743 | the list is what searched files and retries that fit hold, one after another; all other files give nothing |
| `Paging.PageReducer.constructor` | src/grep_tool.rs:567-573 | a new reducer stands for no files |
| `Paging.PageReducer.Reduce` | src/grep_tool.rs:625-743 | each file in order extends the page by its serial share or ends the search with its own message; searched and fitting files never end it |
| `Paging.PageReducer.AddTrimmed` | src/grep_tool.rs:706-722 | trimming an over-captured file yields its serial share although the cap may saturate |
| `Paging.PageReducer.AddExact` | src/grep_tool.rs:696-705 | a retried file is accounted like the serial scan |
| `Paging.PageReducer.AddWhole` | src/grep_tool.rs:724-736 | outside content mode a matching file is one entry |
| `Paging.TerminalIsTruthful` | src/grep_tool.rs:2345-2367 | "partial" is said exactly when an entry lies beyond offset + shown, and the note agrees with glob's, which knows the total, if and only if the page is not blind: the largest head limit at offset 0 showing a list of exactly that many entries |
| `Paging.NotesAreTruthful` | src/grep_tool.rs:559-565 | in terms of the request: every note is truthful unless no limit below the word size was asked for, the budget's own limit fills the word, and a list of exactly that many entries is shown from offset 0 |
| `Paging.BlindPageSaysPartial` | src/grep_tool.rs:2345-2367 | the exception is real: such a list, all shown, is called partial |
| `Paging.IncompleteHoldsOneMore` | src/grep_tool.rs:559-565 | an incomplete scan holds exactly as many entries as were probed for, one more than the head limit if that is below the word's maximum; an exhausted offset reports the true total |
| `Paging.FollowPages` | src/grep_tool.rs:2345-2367 | following the continuation offsets from 0 ends and shows every entry exactly once, in order; an empty page comes last exactly if the first page was blind |
| `Paging.ProbeIsOneBeyond` | src/grep_tool.rs:559-565 | the probe is one beyond the head limit if and only if a limit below the word's maximum was given or four times the budget, plus one, stays below it |
| `Paging.ProbeCanMeetTheLimit` | src/grep_tool.rs:559-565 | with no head limit a budget of 2^62 tokens leaves no room for the probe, one token less does |
| `Paging.HeadLimitIs` | src/grep_tool.rs:559-565 | the head limit is the requested one or, if that is none or more, four entries per token and one, as far as the word reaches |
| `BurstPool.RunStaysBounded` | src/context_guard.rs:53-202 | over any number of calls the counters are exact, no holder is of a foreign generation, spent + reserved stays within 13599, and after k claims of a burst within budget + (k-1)*128 |
| `BurstPool.PendingCallsShareFairly` | src/context_guard.rs:92-127 | if every pending call can still get a stub, then until another call arrives each claim gets its normal budget or an equal share of what was left, and the budget is kept |
| `BurstPool.StepKeepsGood` | src/context_guard.rs:53-202 | arrival, claim, completion and both drops keep the counters exact and the ceiling |
| `BurstPool.ClaimKeepsGood` | src/context_guard.rs:92-127 | a claim reserves exactly its allowance: nothing saturates |
| `BurstPool.ClaimIs` | src/context_guard.rs:92-127 | a claim gets the least of its normal budget, the larger of fair share and 128, and what is left below 13599, and is exhausted exactly if budget or ceiling leaves less than 128 |
| `BurstPool.EndClaimKeepsGood` | src/context_guard.rs:169-202 | ending a claim releases exactly its reservation: nothing saturates |
| `BurstPool.EndsAre` | src/context_guard.rs:129-202 | completion replaces the reservation by what was delivered, dropped tickets deliver nothing, and both note the time |
| `BurstPool.BeginKeepsGood` | src/context_guard.rs:53-71 | a new burst starts only with nothing live |
| `BurstPool.BurstRestarts` | src/context_guard.rs:53-71 | an arrival restarts the burst, with the next generation and zeroed counters, exactly if nobody holds a ticket or claim and the gap since the last completion has passed; else only its ticket is added |
| `BurstPool.TicketsAreCounted` | src/context_guard.rs:92-115 | a ticket in hand means the fair share never divides by zero |
| `BurstDelivery.GuardedBurstPool.constructor` | src/context_guard.rs:34-47 | a new pool is empty |
| `BurstDelivery.GuardedBurstPool.BeginAt` | src/context_guard.rs:53-71 | the in-place arrival has exactly the specified effect |
| `BurstDelivery.GuardedBurstPool.TakeClaim` | src/context_guard.rs:92-127 | the in-place claim has exactly the specified effect and allowance |
| `BurstDelivery.GuardedBurstPool.CompleteAt` | src/context_guard.rs:169-185 | the in-place completion has exactly the specified effect |
| `BurstDelivery.GuardedBurstPool.DropAt` | src/context_guard.rs:129-143 | dropping a ticket has exactly the specified effect |
| `BurstDelivery.Deliver` | src/server_support.rs:81-105 | delivery never exceeds the allowance, leaves a deliverable response unchanged, replaces any other by its stub, and completes the claim for exactly what was sent |
| `BurstDelivery.DeliverableIs` | src/server_support.rs:81-141 | a response is left alone exactly if the cost of all its items is within the allowance and it is no starved error, or the pool was not exhausted |
| `BurstDelivery.GuardedBurstStub` | src/server_support.rs:138-187 | the stub always fits: the full text if it fits, else the compact one with the longest metadata prefix that fits, else an error with the most explicit emergency text, which may be empty |
| `BurstDelivery.CompactGuardedStub` | src/server_support.rs:189-204 | the longest metadata prefix of at most 96 characters that fits is chosen; none exactly if no nonempty one fits |
| `BurstDelivery.AccountedIsTotal` | src/server_support.rs:108-124 | a response is accounted at the sum of its text counts and 3000 per image, in any order, as far as the word reaches |
| `TraversalWalk.WalksAgree` | src/traversal.rs:316-360 | serial and parallel walks over the same entries hit the limit alike, fail whole alike with the same message, else collect the same items and, up to 256 distinct failures, the same report; the minimum failure agrees always |
| `TraversalWalk.CollectParallel` | src/traversal.rs:316-360 | for any assignment of entries to workers and any flushing the walk ends as the entries demand, and its report holds a failure exactly if it was met on its own or inside a walk error |
| `TraversalWalk.VisitsAreWalked` | src/traversal.rs:316-360 | every visit adds its entry to the walk, whichever worker makes it; flushing adds none |
| `TraversalWalk.CollectSerial` | src/traversal.rs:362-414 | the serial walk ends as the entries demand: limit error exactly when matches exceed the maximum; its report holds a failure exactly if it was met, with the details and tally of recording the failures in that order |
| `TraversalWalk.OutcomeAdds` | src/traversal.rs:362-414 | what each kind of entry adds: an item, nothing, a failure, or the failures of a walk error, which is the only one not counted as an entry |
| `TraversalWalk.FailuresAreMet` | src/traversal.rs:386-391 | the failures of a walk are exactly those met on their own or inside a walk error |
| `TraversalWalk.PastTheCapOrderMatters` | src/traversal.rs:107-121 | with more than 256 distinct failures and no entry that fills the list with all that any entry would list, meeting one entry first makes the walk list other paths |
| `TraversalWalk.OtherwiseOrderIsHidden` | src/traversal.rs:107-121 | otherwise every order of the entries lists the same paths |
| `TraversalWalk.OrderMattersExactly` | src/traversal.rs:107-121 | the order shows in the listed paths, and where keys determine reasons in the report as a whole, if and only if there are more than 256 distinct failures and no such entry |
| `TraversalWalk.SamePathsSameReport` | src/traversal.rs:107-121 | two orders that list the same paths leave the same tally, and where keys determine reasons the same details |
| `TraversalWalk.WalkInTwoOrders` | src/traversal.rs:362-414 | two serial walks over the same entries whose reports list different paths, whenever that condition holds |
| `TraversalWalk.FinishCollection` | src/traversal.rs:421-432 | a walk that never yielded an entry fails with the minimum failure's message |
| `TraversalWalk.FinishParallel` | src/traversal.rs:590-601 | the parallel finish draws the same conclusion from the shared state |
| `TraversalWalk.LocalBatch.constructor` | src/traversal.rs:472-489 | a new batch is empty |
| `TraversalWalk.LocalBatch.Gather` | src/traversal.rs:547-588 | a visited entry is added to the worker's batch |
| `TraversalWalk.LocalBatch.FlushInto` | src/traversal.rs:502-538 | a flush moves everything pending and nothing else |
| `TraversalWalk.SharedState.constructor` | src/traversal.rs:449-458 | a new shared state is empty |
| `TraversalWalk.SharedState.Absorb` | src/traversal.rs:521-531 | items are taken until the limit is hit, which raises the stop flag |
| `TraversalWalk.Step` | src/traversal.rs:547-588 | one event keeps the account of flushed, pending and dropped entries; entries are dropped only after the limit was exceeded |
| `TraversalWalk.FinalFlush` | src/traversal.rs:541-545 | every worker flushes once more when it is dropped |
| `TraversalWalk.RecordAll` | src/traversal.rs:386-391 | every failure of a walk error is recorded, in order, with the specified details and tally |
| `SkipReports.SkippedPaths.constructor` | src/traversal.rs:73-82 | a new report accounts for nothing |
| `SkipReports.SkippedPaths.Record` | src/traversal.rs:91-106 | recording keeps details, tally and minimum accountable, and changes each as specified |
| `SkipReports.SkippedPaths.Insert` | src/traversal.rs:112-121 | a new key is listed below the cap and counted at it |
| `SkipReports.SkippedPaths.Merge` | src/traversal.rs:123-137 | merging accounts for both reports, in any order of details |
| `SkipReports.SkippedPaths.IsEmpty` | src/traversal.rs:143-148 | an empty report hides no failure |
| `SkipReports.ReportsAgree` | src/traversal.rs:64-72 | two reports of the same failures have the same minimum and, up to the cap, the same details and tally |
| `SkipReports.SmallReportIsExact` | src/traversal.rs:107-121 | a report is complete with exact reasons exactly while at most 256 distinct keys were recorded |
| `SkipReports.ListedOver` | src/traversal.rs:112-121 | what is listed over other details is listed without them too, and unless the list is full the other way round |
| `SkipReports.ListedIsReport` | src/traversal.rs:112-121 | recording failures in any order gives an accountable report |
| `SkipReports.TallyCountsTheUnlisted` | src/traversal.rs:112-121 | the tally is the number of failures, repeated ones too, whose paths are not listed in the end |
| `PathCodec.ParseDisplayRoundTrip` | src/path_codec.rs:205-248 | reading the display of any path of non-NUL bytes gives an equal path if and only if the display has no URI scheme; that of an absolute path never has one |
| `PathCodec.OnlyFirstNameReadsAsUri` | src/paths.rs:87-98 | the display has a URI scheme exactly if the path's first component is a name shown as it is that starts like one |
| `PathCodec.RelativePathMayReadAsUri` | src/paths.rs:20-30 | the relative path `ab:c` is shown as it is and refused as a scheme |
| `PathCodec.DisplayDecodes` | src/path_codec.rs:211-248 | splitting a display and decoding its components gives an equal path, scheme or not |
| `PathCodec.DisplayIsInjective` | src/path_codec.rs:229-248 | different paths, absolute or relative, are never shown alike |
| `PathCodec.DisplayIsLineSafe` | src/path_codec.rs:229-248 | a display is UTF-8 text without control characters, line or paragraph separators, or backslashes |
| `PathCodec.ComponentRoundTrip` | src/path_codec.rs:361-405 | decoding an encoded component gives the name back, token-shaped names included |
| `PathCodec.PlainNamesAreShown` | src/path_codec.rs:300-360 | a name is shown as it is exactly if it is UTF-8 text without such characters and reads as no token; any other is shown as the token of its bytes |
| `PathCodec.TokenIsCanonical` | src/path_codec.rs:475-509 | every byte token is recognised as canonical |
| `PathCodec.TokensAreDecoded` | src/path_codec.rs:361-405 | a byte token is decoded to its bytes, and refused exactly if they are empty, `.`, `..`, or hold a slash or a NUL |
| `PathCodec.WindowsTokensAreRefused` | src/path_codec.rs:361-405 | a canonical token of the other platform is refused |
| `PathCodec.OthersAreKept` | src/path_codec.rs:361-405 | every other component is taken as it is |
| `PathCodec.HexRoundTrip` | src/path_codec.rs:521-544 | lower-case hex decodes to the bytes it was made from |
| `PathCodec.HexAt` | src/path_codec.rs:521-527 | each byte is written as two lower-case digits, the high one first |
| `PathCodec.AppendLowerHex` | src/path_codec.rs:521-527 | the pushing loop appends the hex of the bytes |
| `PathCodec.DisplayPath` | src/path_codec.rs:229-248 | the pushing loop computes the specified display |
| `PathCodec.ParseInputPath` | src/path_codec.rs:205-226 | the decoding loop computes the specified path and fails at the first bad component |
| `PathCodec.AbsoluteHasNoScheme` | src/paths.rs:87-98 | an absolute path is never taken for a URI |
| `PathCodec.SchemeIs` | src/paths.rs:87-98 | a scheme is what stands before the first colon: at least two letters, digits, `+`, `-` or `.`, a letter first |
| `PathCodec.SchemesAreTold` | src/paths.rs:20-30 | an input with a scheme is a file URI exactly if it reads `file` in either case, and else unsupported |
| `PathCodec.UnderComponents` | src/path_codec.rs:211-225 | splitting a path gives back its base and its segments |

## Left out

- Wall-clock waits, condition-variable wake-ups and spurious wake-ups: they are stutter steps of the ordered executor.
- Opportunistic behaviour of leaves: a leaf may abandon, and a coordinator may stop spawning, at any time; the source does so only after a failed check, so the model has more runs than the source.
- Pool construction and thread creation: a spawn that fails is a coordinator that stops spawning.
- A comparator that panics on the coordinator: comparators are total functions; a worker's panic arrives as a message.
- I/O errors and cancellation inside a capture, and promotion of a large capture to a temporary file: they end the capture with an error and decide nothing about its bytes.
- File identity checks before and after a capture, and all platform metadata: foreign calls.
- Legacy and UTF-16 decoders: only their sticky malformed verdict and its monotonicity are used, so equality of streaming and one-shot decoding is proved for UTF-8 and UTF-32.
- The full encoding validator and the edit pipeline (`encoding/snapshot_pipeline`, `edit`) are not part of this model.
- Byte-pair merges and the splitting pattern: the tokenizer is a splitting function that loses nothing and a count per piece. That the locked one obeys the blank-line law (`LineTokenizers.BlankLineLaw`) is an assumption about a library the model cannot see; which characters take the line feeds behind them is a parameter of the law.
- Cancellation inside token counting and rendering: it only returns early.
- Thread-local reservation levels and error adapters of `budget.rs`: wiring around the counted budget.
- Context lines, capture byte limits and character cursors of the content sink: they decide what is shown around an entry, not which entries are selected; a capture overflow is an outcome of a file.
- The content line planner and its caches of rendered lines: which lines a rendering shows is a parameter of the degradation ladder; the cache that is modelled is the token trie.
- Summary mode: two sums over all files.
- Wording of stubs, notes and errors: parameters; only what they must contain or how large they may be is stated.
- TraversalWalk.CollectParallel: cancellation and a panicking walker end the walk with an error and are not modelled.
- Windows path forms, URIs and percent escapes: an input with a scheme is classified but not parsed further.
- Regular expressions, glob matching and the directory walker: match lists and walk events are given.
- Registry, launcher, transport, configuration and prose: wiring.
