# PandaGen in Dafny

A model, with proofs, of the parts of PandaGen where state is kept consistent over
whole runs.

**Consensus** (`Consensus`, `LogChecker`, `ConsensusProtocol`, `ConsensusDurability`,
`ConsensusLaws`, `ConsensusCluster`, `ConsensusRefinement`). A node is an object with the handlers of
sections 5.2, 5.3 and 5.4.1 of the Raft paper (Ongaro and Ousterhout, extended version). Two
levels stand on it: a message-level protocol, in which requests are delivered late,
repeatedly, to any node or never, and the cluster as coded, which elects and replicates
by visiting a map of nodes in any order. The protocol level has election safety, log
matching and leader completeness over every run. The cluster level refines one shared
log, and each of its runs is shown to be a run of the protocol.

**Virtqueue and block driver** (`Ring`, `Virtqueue`, `VirtqueueObject`, `VirtioBlk`,
`VirtioMemory`, `VirtioDriver`). The split virtqueue of section 2.6 of VIRTIO 1.1: a free list threaded
through the descriptor table, two rings with 16-bit indices that wrap, and the request
protocol of the driver against a device that fetches and completes chains at any time and in
any order, each at most once. The driver object is shown to take only steps of the
protocol, and the protocol to keep the free list an ascending suffix of the table, which is
what makes `head + 1` and `head + 2` the right descriptors. What the device may read and
write of memory is stated for every chain it holds.

**Editor** (`TextBuffer`, `Search`, `Editor`, `EditorCore`, `EditorRuns`, `EditorSession`,
`EditorMoves`, `EditorTyping`, `EditorCommands`, `EditorFinding`, `EditorHost`). The four-mode
editor as an object and as a state machine on values; the two are equal for every key. Edits
and typing are characterised on the newline-joined text, movement by rows and offsets, search
by what it must find, commands by the texts that request them, undo and redo by a timeline
they only move along. The host adds the keyboard's characters and the scrolling viewport.

**Renderer** (`Screen`, `Renderer`, `RenderRuns`, `EditorScreen`). The incremental renderer
with its cell cache against a display that is a grid of cells, compared with a full redraw
over whole sessions. The cursor's look is any function of the cell beneath it and the
attribute.

**Smaller cores.** Last-writer-wins merging (`SyncState`), drawing into byte buffers
(`Rasterizer`), the two-slot glyph cache (`GlyphCache`), and the tick accumulator (`Ticks`).

Where a promised property does not hold of the code, the model keeps the code, shows an
input, and proves exactly when the property holds:

- saving and loading: `TextBuffer.SaveLoadRoundTrip`, `TextBuffer.TrailingEmptyLineIsLost`;
- incremental frames: `RenderRuns.RenderSession`, `RenderRuns.VgaRightIff`, `RenderRuns.OneRowCounterexample`;
- undo and redo: `EditorRuns.UndoRedoRoundTrip`, `EditorRuns.UndoAtTheStartIsNotUndone`;
- typing and prompts: `EditorTyping.TypedIsInsertedIff`, `EditorTyping.SlashIsNotTyped`, `EditorTyping.AtPromptAllIff`, `EditorCommands.TypedPathLosesLetters`;
- the cursor in view: `EditorHost.InViewIff`, `EditorHost.CursorStaysInView`, `EditorHost.UndoCanHideCursor`;
- merging: `SyncState.MergeCommutesIff`, `SyncState.DeviceOrderFreeIff`, `SyncState.TiedMergesDiffer`, `SyncState.TiedDevicesDiffer`;
- descriptors after time-outs: `VirtioBlk.TableIsWholeIffNoTimeOut`, `VirtioBlk.TimedOutFlushLeaks`;
- ring sizes: `Ring.PushesIff`, whose proof names the write that spoils the ring;
- colours on a framebuffer: `Rasterizer.ReadsBackIffOpaque`, `Rasterizer.TransparencyIsLost`;
- tick counts: `Ticks.ExactIffPrompt`, `Ticks.LatePollCountsNothing`.

Two places where the code departs from what one would expect, followed as coded: a leader
handles its own append request and thereby becomes a follower, so each won election
replicates one entry; and a timed-out or mismatched block request never frees its
descriptors.

`dafny verify dfyconfig.toml` checks the whole project.

## Model

| member | source | states |
|---|---|---|
| `ConsensusProtocol.ElectionSafety` | distributed_storage/src/consensus.rs:136-198 | in every message-level run from fresh nodes, with vote and append requests delayed, repeated, lost or made up, at most one node ever becomes leader in a term |
| `ConsensusProtocol.QuorumsMeet` | distributed_storage/src/consensus.rs:280-283 | two sets of at least len/2 + 1 of the same nodes have a node in common |
| `ConsensusProtocol.StepKeepsElection` | distributed_storage/src/consensus.rs:136-200 | every step keeps the election invariant: a grant stands behind at most one candidate per term, every vote a node holds is a recorded grant of its current term, whoever campaigns or leads voted for itself, and every win has a quorum of grants |
| `ConsensusProtocol.LogMatching` | distributed_storage/src/consensus.rs:183-222 | in every run whose append requests are built as the leader builds them, vote requests made up or not, two logs with the same term at the same position are identical up to and including it |
| `ConsensusProtocol.OneEntryPerTerm` | distributed_storage/src/consensus.rs:292-333 | in every such run the terms of a log strictly increase, because a leader that handles its own request becomes a follower |
| `ConsensusProtocol.ReachableLogsPass` | distributed_storage/src/consensus.rs:306-333 | every node log such a run can reach satisfies the log checker |
| `ConsensusProtocol.StepKeepsInv` | distributed_storage/src/consensus.rs:136-233 | every step that makes up no append request keeps the whole protocol invariant: elections, and every log being exactly what its last term wrote |
| `ConsensusProtocol.OfferedAppend` | distributed_storage/src/consensus.rs:203-222 | a leader's request, once accepted, either changes nothing or makes the log exactly what that term wrote, and always leaves what that term wrote as a prefix |
| `ConsensusProtocol.LeaderWrites` | distributed_storage/src/consensus.rs:298-329 | a leader handling its own request extends its log by the one new entry, which keeps the record of what each term wrote sound |
| `ConsensusDurability.LeaderCompleteness` | distributed_storage/src/consensus.rs:152-181 | whatever a quorum accepted in term t is a prefix of the log every winner of a later term had when it won |
| `ConsensusDurability.LaterLeadersHoldAcknowledged` | distributed_storage/src/consensus.rs:260-341 | in every run without made-up requests, an entry accepted by a quorum, with all before it, stands in the log of every leader of a later term |
| `ConsensusDurability.AcknowledgedLogsAgree` | distributed_storage/src/consensus.rs:292-341 | in every run without made-up requests, of two logs accepted by quorums the earlier one is a prefix of the later one |
| `ConsensusDurability.StepKeepsDurability` | distributed_storage/src/consensus.rs:136-233 | every step that makes up no request keeps the durability invariant relating votes, victories, acceptances and written logs |
| `ConsensusLaws.GrantsIffUnpledged` | distributed_storage/src/consensus.rs:152-200 | in every run, made-up requests included, a node grants a ballot if and only if it is not past its term, no vote of it for another candidate is on record in that term, and its log is not ahead; so an append of a newer term carries no vote into that term |
| `ConsensusLaws.GrantPledges` | distributed_storage/src/consensus.rs:152-181 | a granted ballot is on record and no other candidate is granted in that term afterwards |
| `ConsensusLaws.LogsCompare` | distributed_storage/src/consensus.rs:166-168 | the voters' comparison of logs is total and transitive, and level only for equal last term and index |
| `ConsensusLaws.LongerLogsWin` | distributed_storage/src/consensus.rs:166-168 | in every run of genuine appends a log is at least every log it begins with, strictly if longer, and level logs are equal |
| `ConsensusLaws.AcceptsIffPrefix` | distributed_storage/src/consensus.rs:183-211 | in every run of genuine appends a node accepts a request if and only if it is not past its term and its log begins with all the leader had before the new entry |
| `ConsensusLaws.AcceptedEntriesStand` | distributed_storage/src/consensus.rs:213-233 | it then holds all the leader wrote, follows in that term, and has committed that far or further |
| `ConsensusLaws.CommitFollowsLeader` | distributed_storage/src/consensus.rs:224-227 | for any node and any accepted request the commit index rises only as far as the leader confirms and the log reaches, rises as far as both allow, and falls if and only if the request confirms more than it while the log ends before it |
| `ConsensusLaws.RefusedChangesNothing` | distributed_storage/src/consensus.rs:187-211 | a refused request changes neither log nor commit index, and one of an older term nothing at all |
| `ConsensusLaws.ElectedByMajority` | distributed_storage/src/consensus.rs:269-289 | an election succeeds if and only if more than half of the nodes vote for the candidate, itself included |
| `ConsensusLaws.ReplicatedByMajority` | distributed_storage/src/consensus.rs:292-341 | a replication is delivered to every node and confirmed if and only if more than half accept |
| `ConsensusLaws.RefusedCommands` | distributed_storage/src/consensus.rs:260-305 | unknown ids and nodes that do not lead get their own errors and nothing changes |
| `ConsensusCluster.ClusterIsSharedLog` | distributed_storage/src/consensus.rs:260-341 | after any sequence of elections and replications on fresh nodes the replies are those of one shared log; all nodes have its term, its log (the entries returned) and its length as commit index, and at most one is leader |
| `ConsensusCluster.StepRefines` | distributed_storage/src/consensus.rs:260-341 | one election or replication, with any candidate, leader or unknown id, answers and acts as one step on the shared log |
| `ConsensusCluster.ElectRefines` | distributed_storage/src/consensus.rs:260-290 | on agreeing nodes an election of any member succeeds, raises every term by one and leaves exactly that leader |
| `ConsensusCluster.ReplicateRefines` | distributed_storage/src/consensus.rs:292-341 | on agreeing nodes a leader's replication succeeds, returns the new entry, appends it everywhere and leaves no leader |
| `ConsensusCluster.Cluster.constructor` | distributed_storage/src/consensus.rs:242-246 | a new cluster has no nodes |
| `ConsensusCluster.Cluster.AddNode` | distributed_storage/src/consensus.rs:248-250 | puts the node into the map under its own id |
| `ConsensusCluster.Cluster.CollectVotes` | distributed_storage/src/consensus.rs:269-278 | whatever order the map is visited in, every other node has handled the ballot and the count is one plus the number of nodes that grant it |
| `ConsensusCluster.Cluster.ElectLeader` | distributed_storage/src/consensus.rs:260-290 | new nodes and result, errors included, are those of the election function for every map and candidate |
| `ConsensusCluster.Cluster.Deliver` | distributed_storage/src/consensus.rs:329-332 | one node handles the request and nothing else changes |
| `ConsensusCluster.Cluster.Broadcast` | distributed_storage/src/consensus.rs:327-333 | whatever order the map is visited in, every node has handled the request and the count is the number that accept |
| `ConsensusCluster.Cluster.ReplicateEntry` | distributed_storage/src/consensus.rs:292-341 | new nodes and result, errors included, are those of the replication function for every map and leader |
| `ConsensusRefinement.ElectionRun` | distributed_storage/src/consensus.rs:260-290 | an election as coded, whatever its outcome, is a run of the message-level protocol |
| `ConsensusRefinement.ReplicationRun` | distributed_storage/src/consensus.rs:292-341 | a replication as coded is a run of the message-level protocol |
| `ConsensusRefinement.ClusterFollowsProtocol` | distributed_storage/src/consensus.rs:260-341 | every sequence of elections and replications is a run of the message-level protocol ending in the same nodes |
| `ConsensusRefinement.ClusterLogsPass` | distributed_storage/src/consensus.rs:260-341 | every log of the coded cluster satisfies the log checker |
| `Consensus.AppendKeepsIndices` | distributed_storage/src/consensus.rs:183-233 | for consecutive requests indices stay equal to positions, a refused request leaves the log alone, an accepted one leaves every sent term in the log |
| `Consensus.AppendTruncatesOnlyOnConflict` | distributed_storage/src/consensus.rs:213-222 | an accepted consecutive request keeps the whole old log as a prefix if and only if no held entry has another term than the sent one; on a conflict the log is cut exactly there |
| `Consensus.AppendIdempotent` | distributed_storage/src/consensus.rs:183-233 | handling the same consecutive request twice leaves the whole node as handling it once |
| `Consensus.PlaceAllShape` | distributed_storage/src/consensus.rs:213-222 | the receive loop as a whole: the log up to the first disagreement, then the sent entries from there on |
| `Consensus.PlaceAllHolds` | distributed_storage/src/consensus.rs:213-222 | after the loop every sent term stands in the log and nothing before the first sent index has moved |
| `Consensus.ConsensusNode.constructor` | distributed_storage/src/consensus.rs:116-126 | a new node is a follower in term 0 with an empty log |
| `Consensus.ConsensusNode.BecomeCandidate` | distributed_storage/src/consensus.rs:136-146 | raises the term, votes for itself and asks with its own last index and term |
| `Consensus.ConsensusNode.BecomeLeader` | distributed_storage/src/consensus.rs:148-150 | changes only the role |
| `Consensus.ConsensusNode.HandleRequestVote` | distributed_storage/src/consensus.rs:152-181 | new node and reply are those of the voting rule the election proofs use |
| `Consensus.ConsensusNode.HandleAppendEntries` | distributed_storage/src/consensus.rs:183-233 | new node and reply are those of the append rule the log proofs use, the loop with truncation included |
| `LogChecker.VerifyConsensusLog` | formal_verification/src/lib.rs:158-185 | passes exactly the logs with positive strictly increasing indices and non-decreasing terms; otherwise reports the first entry that breaks the rule and which rule |
| `VirtioBlk.DeviceKeepsItsChains` | hal_x86_64/src/virtio_blk.rs:133-215 | in every run of requests, time-outs and wrong ids included, a chain the device still holds stands unchanged in the table and none of its descriptors is free |
| `VirtioBlk.FreeListIsSuffix` | hal_x86_64/src/virtio_blk.rs:133-215 | in every run the free list is the ascending suffix of the table of length num_free |
| `VirtioBlk.SubmitAddressesItsOwn` | hal_x86_64/src/virtio_blk.rs:142-183 | head, head + 1 and head + 2 are exactly the descriptors just allocated |
| `VirtioMemory.DeviceTouchesItsOwn` | hal_x86_64/src/virtio_blk.rs:161-183 | in every run, following the table from any head the device holds, it may write exactly the caller's buffer of a read and the status byte, and only read the sixteen-byte header and the caller's buffer of a write; a flush exposes no data; all it reads comes first |
| `VirtioMemory.SubmitServes` | hal_x86_64/src/virtio_blk.rs:161-186 | the same of the request just submitted |
| `VirtioMemory.FollowedIsChain` | hal_x86_64/src/virtio.rs:225-241 | following the flags from a head meets exactly the published chain |
| `VirtioBlk.TableIsWholeIffNoTimeOut` | hal_x86_64/src/virtio_blk.rs:189-206 | between requests all descriptors are free again if and only if no request of the run timed out |
| `VirtioBlk.TimedOutFlushLeaks` | hal_x86_64/src/virtio_blk.rs:252-314 | one timed-out flush on a table of two descriptors leaves none |
| `VirtioBlk.RunLeaks` | hal_x86_64/src/virtio_blk.rs:189-206 | over any run descriptors are abandoned if and only if they were before or a request times out |
| `VirtioBlk.StepKeepsInv` | hal_x86_64/src/virtio_blk.rs:133-215 | submission, completion, time-out, matching and mismatching reaping all keep: chains published stand apart in the table, cover it up to the free suffix, and the device holds only published ones |
| `VirtioBlk.CurrentChain` | hal_x86_64/src/virtio_blk.rs:199-206 | the chain freed on completion is exactly the run of descriptors from head to the free suffix |
| `VirtioBlk.ReapShape` | hal_x86_64/src/virtio_blk.rs:199-206 | freeing it restores the free suffix and rewrites one link only |
| `Virtqueue.AllocatorPartition` | hal_x86_64/src/virtio.rs:189-241 | for any interleaving of allocations and frees of linked chains, following next num_free times from free_head visits each unallocated descriptor once and no allocated one, and free plus allocated is the table |
| `Virtqueue.UseKeepsPartition` | hal_x86_64/src/virtio.rs:206-241 | one allocation or free keeps that partition |
| `Virtqueue.AllocTakesFront` | hal_x86_64/src/virtio.rs:206-222 | allocation takes the front of the free list and touches no descriptor |
| `Virtqueue.FreePutsFront` | hal_x86_64/src/virtio.rs:225-241 | freeing a chain puts it, in its own order, before the free list |
| `Virtqueue.NewTableSound` | hal_x86_64/src/virtio.rs:189-192 | the initial free list is the whole table in order |
| `Virtqueue.ChainFound` | hal_x86_64/src/virtio.rs:225-241 | the walk along NEXT flags finds exactly the chain |
| `VirtqueueObject.Queue.constructor` | hal_x86_64/src/virtio.rs:179-203 | a new queue has the whole table free and both rings empty |
| `VirtqueueObject.Queue.AllocDesc` | hal_x86_64/src/virtio.rs:206-222 | free head, count and result are those of the allocation on values; nothing else changes |
| `VirtqueueObject.Queue.FreeDesc` | hal_x86_64/src/virtio.rs:225-241 | the in-place walk and relinking give the table with the chain freed |
| `VirtqueueObject.Queue.AddToAvail` | hal_x86_64/src/virtio.rs:244-248 | writes the slot of the 16-bit index and advances it, whatever the ring holds; when the ring is not full and its size divides 65536, the heads the device has not fetched gain this one at the end |
| `VirtqueueObject.Queue.HasUsed` | hal_x86_64/src/virtio.rs:251-253 | true if and only if a reported completion is still unread |
| `VirtqueueObject.Queue.GetUsed` | hal_x86_64/src/virtio.rs:256-266 | takes the oldest unread completion, or nothing when there is none, across wrap-around |
| `Ring.PushExtends` | hal_x86_64/src/virtio.rs:244-248 | writing the next slot of a ring extends its window by the value written and spoils nothing in it |
| `Ring.PopDrops` | hal_x86_64/src/virtio.rs:256-266 | advancing the reading index drops exactly the first value of the window |
| `Ring.WrapKeepsSlot` | hal_x86_64/src/virtio.rs:244-266 | the slot survives wrap-around of the index when the size divides 65536 |
| `Ring.WrapKeepsSlotsIff` | hal_x86_64/src/virtio.rs:244-266 | every counter names the same slot after the 16-bit wrap if and only if the size divides 65536 |
| `Ring.PushesIff` | hal_x86_64/src/virtio.rs:244-248 | writing the next slot of a ring that is not full always appends if and only if the size divides 65536; otherwise a write past the wrap lands on an unread entry |
| `VirtioDriver.Driver.constructor` | hal_x86_64/src/virtio_blk.rs:100-105 | a new driver is in the protocol's initial state |
| `VirtioDriver.Driver.WriteChain` | hal_x86_64/src/virtio_blk.rs:158-183 | the descriptors written at head, head + 1 and head + 2 are those of the request |
| `VirtioDriver.Driver.Publish` | hal_x86_64/src/virtio_blk.rs:142-186 | refuses without change if and only if too few descriptors are free; otherwise takes the submission step, after which the table in memory lets the device write and read exactly what the request means it to |
| `VirtioDriver.Driver.AwaitUsed` | hal_x86_64/src/virtio_blk.rs:189-197 | polling changes nothing but what the device does meanwhile, and answers whether a completion is unread |
| `VirtioDriver.Driver.Collect` | hal_x86_64/src/virtio_blk.rs:199-206 | takes the reaping step; the chain is freed if and only if the id matches |
| `VirtioDriver.Driver.GiveUp` | hal_x86_64/src/virtio_blk.rs:189-197 | takes the time-out step: nothing is freed |
| `VirtioDriver.Driver.Conclude` | hal_x86_64/src/virtio_blk.rs:189-215 | ends the request by exactly one of matching completion, wrong id and time-out, and says which |
| `VirtioDriver.Driver.Perform` | hal_x86_64/src/virtio_blk.rs:133-215 | one whole request is a run of the protocol whatever the device does; the descriptor count after it follows from its outcome |
| `VirtioDriver.RequestCost` | hal_x86_64/src/virtio_blk.rs:252-314 | a request costs its descriptors unless its own completion is read |
| `RenderRuns.RenderSession` | kernel_bootstrap/src/optimized_render.rs:285-422 | through any sequence of views, scrolls, status changes, cursor moves, attributes, new displays and force flags, on any display with cells, the screen after a frame is the full redraw of its view if and only if the status attribute is the one the status was last drawn with and, on a single row, the cursors drawn since left no trace; with a text row and a steady attribute it always is |
| `RenderRuns.SteadyIsRight` | kernel_bootstrap/src/optimized_render.rs:316-322 | below a text row, with a status attribute that changes only with a forced redraw or a new display, every frame is right |
| `RenderRuns.VgaRightIff` | kernel_bootstrap/src/optimized_render.rs:350-397 | on a one-row VGA screen with visible cursors a frame is right if and only if, beside its own column, the cursor has been in no column since the status was last drawn and the status attribute is still the one drawn |
| `RenderRuns.OneRowCounterexample` | kernel_bootstrap/src/optimized_render.rs:350-397 | rendering three frames on a one-row VGA screen, the cursor moving once and then staying, shows the second and the third wrong |
| `Screen.OneRowShowsIffTraceFree` | kernel_bootstrap/src/optimized_render.rs:350-397 | for any look of the cursor, a one-row frame is the full redraw if and only if every earlier cursor left the plain cell, or under the new cursor one that looks the same |
| `Screen.VgaTraceFree` | console_vga/src/lib.rs:259-277 | for the VGA cursor: every column beside the cursor's has kept its attribute uncovered, or shows a character whose last cursor looked just like the status |
| `Renderer.RenderEditor` | kernel_bootstrap/src/optimized_render.rs:285-422 | one incremental frame: when the status row is drawn, how it stands afterwards, and that the screen is the full redraw if and only if the attribute drawn is the one asked for and, on a single row, earlier cursors left no trace |
| `Renderer.RenderRows` | kernel_bootstrap/src/optimized_render.rs:294-385 | everything but the cursor: text rows are the view's, and the last row stands as it was last drawn under the cursors since |
| `Renderer.FrameShows` | kernel_bootstrap/src/optimized_render.rs:387-397 | over rows in place, drawing the cursor gives the full redraw exactly under that condition |
| `Renderer.RenderText` | kernel_bootstrap/src/optimized_render.rs:322-376 | after the text pass every text row of display and cache is the row of the view, drawn fully or incrementally |
| `Renderer.RestoreUnderCursor` | kernel_bootstrap/src/optimized_render.rs:350-360 | the cell under the old cursor is put back from the cache, so the text rows equal the cache |
| `Renderer.RenderAllText` | kernel_bootstrap/src/optimized_render.rs:334-344 | a full pass makes every text row of display and cache the row of the view |
| `Renderer.RenderChangedText` | kernel_bootstrap/src/optimized_render.rs:363-375 | so does a pass that draws only rows that differ |
| `Renderer.LineNeedsUpdate` | kernel_bootstrap/src/optimized_render.rs:425-444 | true if and only if the cached row is not the text padded with blanks |
| `Renderer.RenderRow` | kernel_bootstrap/src/optimized_render.rs:447-489 | display row and cached row become the text padded with blanks; no other row changes |
| `Renderer.DiffRow` | kernel_bootstrap/src/optimized_render.rs:505-520 | the cached row becomes the text, and outside the span found nothing differed |
| `Renderer.WriteSpan` | kernel_bootstrap/src/optimized_render.rs:523-546 | the span of the display row becomes the span of the padded text |
| `Renderer.RenderRowIncremental` | kernel_bootstrap/src/optimized_render.rs:492-551 | the incremental row gives what the full row gives when the display row was the cached one |
| `Renderer.RenderStatus` | kernel_bootstrap/src/optimized_render.rs:554-588 | the last row becomes the padded status text and is remembered with its attribute |
| `Renderer.PlaceCursor` | kernel_bootstrap/src/optimized_render.rs:388-397 | the cursor is drawn over the text and remembered where it was drawn |
| `RenderRuns.RenderFrame` | kernel_bootstrap/src/optimized_render.rs:285-422 | one frame of a session, a replaced display included, is the full redraw exactly when right, and leaves display and cache as the frames so far determine |
| `Renderer.Cache.constructor` | kernel_bootstrap/src/optimized_render.rs:64-75 | a new cache is empty and invalid |
| `Renderer.Cache.EnsureSize` | kernel_bootstrap/src/optimized_render.rs:82-92 | the same size keeps everything, another size invalidates the cache |
| `Renderer.Cache.Get` | kernel_bootstrap/src/optimized_render.rs:95-101 | the cell of that row and column, or the empty cell outside |
| `Renderer.Cache.Set` | kernel_bootstrap/src/optimized_render.rs:104-108 | changes that one cell of the flat buffer, or nothing outside |
| `Renderer.Cache.Invalidate` | kernel_bootstrap/src/optimized_render.rs:111-113 | only forgets validity |
| `Screen.BoldShows` | kernel_bootstrap/src/optimized_render.rs:554-588 | two status attributes show the same screen only if they are equal |
| `Screen.SwappedHalves` | console_vga/src/lib.rs:264-265 | the cursor exchanges the foreground and background halves of the attribute, and doing so twice gives it back |
| `EditorScreen.RedrawShowsText` | kernel_bootstrap/src/minimal_editor.rs:274-288 | a full redraw of an editor state shows, cell by cell, the text from the scroll offset on, blank past a line or the text, the cursor over the character it is at, and the status below |
| `EditorScreen.RightFrameShowsText` | kernel_bootstrap/src/optimized_render.rs:285-422 | so does every right frame of a session that renders that state |
| `EditorScreen.CursorOnItsCharacter` | kernel_bootstrap/src/minimal_editor.rs:279-288 | a cursor within the visible rows and columns stands on the very character of the text it is at |
| `Screen.Sink.WriteAt` | console_vga/src/lib.rs:182-193 | writes one cell and answers whether it lies on the display |
| `Screen.Sink.WriteStrAt` | console_vga/src/lib.rs:199-229 | cells and count of the text written cell by cell, running on at the right edge, starting a row at each newline and stopping below the last row |
| `Screen.PrintedFlows` | console_vga/src/lib.rs:199-229 | a text without newlines fills consecutive cells, row after row, as far as the display goes, and changes no other cell |
| `Screen.PrintedFits` | console_vga/src/lib.rs:199-229 | one that fits its row replaces exactly its span of it |
| `Screen.PrintedCounts` | console_vga/src/lib.rs:199-229 | of a text without newlines as many characters are counted as written as the display has cells from there on |
| `Screen.PrintedBreaks` | console_vga/src/lib.rs:203-210 | a newline goes on at the start of the next row, and ends the text below the last one |
| `Screen.Sink.ClearSpan` | kernel_bootstrap/src/display_sink.rs:36-44 | blanks exactly what the display has of the span and counts it |
| `Screen.Sink.DrawCursor` | console_vga/src/lib.rs:259-277 | replaces the one cell by its cursor look, and ignores a position off the display |
| `EditorRuns.EveryStateIsSound` | editor_core/src/core.rs:82-89 | after any keys, loads and saves the live buffer and every snapshot have a line under a cursor whose column is within it, and undo plus redo depth is at most 100 |
| `EditorRuns.UnforcedExitLosesNothing` | editor_core/src/core.rs:372-398 | after any keys, loads and saves, an unforced exit is requested only when the text is the one last loaded or saved |
| `EditorRuns.StepKeepsReachable` | editor_core/src/core.rs:82-570 | every key, load and save keeps those facts and that a clear dirty flag means nothing is unsaved |
| `EditorRuns.UndoKeepsTimeline` | editor_core/src/core.rs:418-435 | undo never changes the sequence of past, present and undone states |
| `EditorRuns.RedoKeepsTimeline` | editor_core/src/core.rs:437-454 | redo never changes it either |
| `EditorRuns.QuietKeysKeepTimeline` | editor_core/src/core.rs:148-370 | no key but an edit changes the sequence of texts, in any mode |
| `EditorRuns.EditsExtendTimeline` | editor_core/src/core.rs:402-416 | an edit forgets what was undone, becomes the end of the timeline, and beyond 100 states drops only the oldest |
| `EditorRuns.UndoRedoRoundTrip` | editor_core/src/core.rs:418-454 | k undos then k redos restore text, cursor and both stacks if and only if k is at most the undo depth or nothing is undone |
| `EditorRuns.UndoAtTheStartIsNotUndone` | editor_core/src/core.rs:418-454 | with nothing to undo and one state undone, an undo and a redo end on the undone text |
| `EditorRuns.UndosMoveBack` | editor_core/src/core.rs:418-435 | k undos move k places back, stopping at the start, on the same timeline |
| `EditorRuns.RedosMoveOn` | editor_core/src/core.rs:437-454 | k redos move k places on, stopping at the end, on the same timeline |
| `EditorRuns.CleanKeyKeepsText` | editor_core/src/core.rs:137-299 | a key after which the dirty flag is clear found it clear and left the text alone |
| `EditorMoves.DownLeadsDown` | editor_core/src/core.rs:532-537 | J and Down lead to the next row, at the smaller of the old column and that row's length, if and only if there is one, and change nothing else |
| `EditorMoves.UpLeadsUp` | editor_core/src/core.rs:525-530 | K and Up lead to the row above in the same way |
| `EditorMoves.DownsLeadDown` | editor_core/src/core.rs:532-537 | pressed k times they end k rows further down, or in the last row, in the column the narrowest row on the way allows |
| `EditorMoves.UpsLeadUp` | editor_core/src/core.rs:525-530 | pressed k times they end k rows further up, or in the first row, likewise |
| `EditorMoves.LeftStepsBack` | editor_core/src/core.rs:539-543 | H and Left lower the offset in the joined text by one, by nothing at the start of a line |
| `EditorMoves.RightStepsOn` | editor_core/src/core.rs:545-550 | L and Right raise it by one, by nothing past the last character of a line |
| `EditorMoves.InsertStartsHere` | editor_core/src/core.rs:150-163 | I starts inserting at the cursor, A one character on where the line has one |
| `EditorMoves.EscapeStepsBack` | editor_core/src/core.rs:252-261 | Escape ends inserting one character back, or in place at the start of a line |
| `EditorMoves.EscapeLeadsHome` | editor_core/src/core.rs:250-370 | from any mode Escape leads to normal mode with its prompt empty and touches neither text nor history |
| `EditorMoves.ContinueShowsNothingNew` | editor_core/src/core.rs:82-370 | a key answered with Continue changed nothing that shows |
| `EditorMoves.MessagesExplain` | editor_core/src/core.rs:82-398 | a key answered with a message changed text or cursor only by undo or redo |
| `EditorTyping.TextTyped` | editor_core/src/core.rs:250-299 | text typed in insert mode, line ends included, stands in the joined text at the cursor, without the characters colon and slash, and the cursor behind it |
| `EditorTyping.TypedIsInsertedIff` | editor_core/src/core.rs:250-299 | what is inserted is what was typed if and only if that holds neither a colon nor a slash |
| `EditorTyping.SlashIsNotTyped` | editor_core/src/core.rs:250-299 | typing "a/b" inserts "ab" |
| `EditorTyping.KeysTypeThemselves` | editor_core/src/key.rs:49-71 | every printable character has a key that in insert mode types just that character, save colon and slash |
| `EditorTyping.BackspaceTakesBack` | editor_core/src/core.rs:287-296 | Backspace takes back a character or line end just typed, and the cursor with it |
| `EditorTyping.BackspaceRemovesBefore` | editor_core/src/core.rs:287-296 | Backspace removes the character before the cursor of the joined text, and changes nothing at its very start |
| `EditorTyping.CutRemovesHere` | editor_core/src/core.rs:184-192 | X removes the character under the cursor of the joined text and leaves the cursor; past the line it changes nothing |
| `EditorTyping.LineCutRemovesRow` | editor_core/src/core.rs:193-205 | D removes the cursor's line, and the cursor keeps row and column as far as the text still has them |
| `EditorTyping.UndoTakesBack` | editor_core/src/core.rs:402-454 | after any edit, undo brings back text and cursor from before it and redo the edit |
| `EditorTyping.HundredRemembered` | editor_core/src/core.rs:402-416 | an edit is remembered after the others; the hundred and first pushes out the oldest only |
| `EditorTyping.HistorySpeaks` | editor_core/src/core.rs:208-221 | undo and redo say whether there was anything to go to, and change nothing if not |
| `EditorTyping.LoadStartsAfresh` | editor_core/src/core.rs:560-566 | a loaded text is clean, shown from offset zero, and has nothing to undo or redo |
| `EditorTyping.TextPrompted` | editor_core/src/core.rs:301-370 | text typed at a prompt is appended to it, without colon, slash and the ten letters that are commands in normal mode |
| `EditorTyping.PromptTakesBack` | editor_core/src/core.rs:317-322 | Backspace at a prompt takes back a character just typed there |
| `EditorTyping.CommandTyped` | editor_core/src/core.rs:301-333 | a colon, a text and Enter execute what the prompt took of the text, and lead back to normal mode unless the editor exits |
| `EditorTyping.AtPromptAllIff` | editor_core/src/core.rs:301-370 | a text arrives at a prompt as typed if and only if the prompt takes all its characters |
| `EditorCommands.CommandOutcomes` | editor_core/src/core.rs:372-398 | forced exit, unforced exit, save, and save-and-quit are each requested if and only if the prompt holds exactly that command between white space and, where it matters, the text is clean or dirty |
| `EditorCommands.WriteAsOutcome` | editor_core/src/command.rs:44-47 | saving to a path is requested if and only if the prompt holds a w, white space beginning with a blank, and that path |
| `EditorCommands.UnknownOutcome` | editor_core/src/command.rs:48-48 | anything else is answered as unknown, with what stood between the white space |
| `EditorCommands.TrimIff` | editor_core/src/command.rs:37-37 | trimming finds the one text without white space at its ends that the text is padded from |
| `EditorCommands.TypedPathLosesLetters` | editor_core/src/core.rs:323-331 | typing ":w data" in normal mode requests saving to "t" |
| `EditorHost.InViewIff` | kernel_bootstrap/src/minimal_editor.rs:261-271 | after a byte the cursor is in view if and only if the key changed something or left the cursor in the old view |
| `EditorHost.CursorStaysInView` | kernel_bootstrap/src/minimal_editor.rs:122-141 | through any bytes that do not undo, a cursor in view stays in view |
| `EditorHost.UndoCanHideCursor` | kernel_bootstrap/src/minimal_editor.rs:136-149 | undoing a change made further down leaves the cursor out of view |
| `EditorHost.AdjustedIsNearest` | kernel_bootstrap/src/minimal_editor.rs:261-271 | the new scroll offset shows the cursor's row and is nearer to the old one than any other that does |
| `EditorHost.MinimalEditor.constructor` | kernel_bootstrap/src/minimal_editor.rs:42-53 | a new host has a new editor and starts at the top |
| `EditorHost.MinimalEditor.AdjustViewport` | kernel_bootstrap/src/minimal_editor.rs:261-271 | only the scroll offset changes, to that nearest one |
| `EditorHost.MinimalEditor.ProcessByte` | kernel_bootstrap/src/minimal_editor.rs:122-145 | editor and scroll offset are those of the host on values; it quits if and only if the editor asks to exit |
| `EditorSession.Drive` | editor_core/src/core.rs:82-570 | a new editor object answers every event of any sequence as the state machine does, and never requests an unforced exit with unsaved text |
| `EditorSession.Handle` | editor_core/src/core.rs:82-570 | one event takes the object from a state of the machine to the next and answers the machine's outcome |
| `EditorCore.Core.constructor` | editor_core/src/core.rs:66-79 | a new editor is in normal mode on one empty line, clean, with empty stacks |
| `EditorCore.Core.ApplyKey` | editor_core/src/core.rs:82-89 | state and outcome are those of the machine in all four modes |
| `EditorCore.Core.HandleNormalMode` | editor_core/src/core.rs:148-248 | state and outcome of every normal-mode key |
| `EditorCore.Core.HandleInsertMode` | editor_core/src/core.rs:250-299 | state and outcome of every insert-mode key |
| `EditorCore.Core.HandleCommandMode` | editor_core/src/core.rs:301-333 | state and outcome of every key at the command prompt |
| `EditorCore.Core.HandleSearchMode` | editor_core/src/core.rs:335-370 | state and outcome of every key at the search prompt |
| `EditorCore.Core.Execute` | editor_core/src/core.rs:372-398 | the outcome of the typed command; an unforced exit only when clean |
| `EditorCore.Core.TypeChar` | editor_core/src/core.rs:137-146 | snapshot, insertion, cursor and dirty flag of typing, or nothing changed |
| `EditorCore.Core.SaveUndoSnapshot` | editor_core/src/core.rs:402-416 | pushes the present, drops the oldest beyond 100 and forgets what was undone |
| `EditorCore.Core.Undo` | editor_core/src/core.rs:418-435 | moves the present to the redo stack and the last snapshot into the present |
| `EditorCore.Core.Redo` | editor_core/src/core.rs:437-454 | the mirror image of undo |
| `EditorCore.Core.FindNext` | editor_core/src/core.rs:458-521 | remembers the query, moves the cursor to the answer of the search or leaves it |
| `EditorCore.Core.LoadContent` | editor_core/src/core.rs:560-566 | the text is the loaded one, clean, cursor at the start, stacks empty |
| `EditorCore.Core.MarkSaved` | editor_core/src/core.rs:568-570 | clears only the dirty flag |
| `Search.FindNextAnswers` | editor_core/src/core.rs:458-521 | the hit is, for a new query, the first occurrence at the cursor or after it in reading order, for a repeat the first strictly after it; else the first in the rows above; else for a repeat the first wholly before the cursor on its row; no hit means none of these regions holds the query |
| `Search.AnswerIsUnique` | editor_core/src/core.rs:458-521 | that description admits one answer only |
| `EditorFinding.NMovesOn` | editor_core/src/core.rs:237-244 | in every reachable state N repeats the last search, never answers with the cursor's own place, and moves if and only if there is an occurrence after the cursor, in a row above, or wholly before it in its row |
| `EditorFinding.QueryTyped` | editor_core/src/core.rs:335-370 | a slash, a text and Enter search from the cursor on for what the prompt took of the text, and remember it |
| `EditorFinding.KeyKeepsTidy` | editor_core/src/core.rs:335-370 | no query stands outside search mode, which is what makes N a repeat |
| `EditorFinding.NextWordFound` | editor_core/src/core.rs:476-480 | on "foo foo" with the cursor on the first word, N goes to the second |
| `Search.Find` | editor_core/src/core.rs:474-520 | the row-by-row loops with wrap-around compute that answer |
| `TextBuffer.InsertIsFlat` | editor_core/src/buffer.rs:71-83 | typing inserts one character at the cursor of the newline-joined text and moves the cursor past it |
| `TextBuffer.SplitIsFlat` | editor_core/src/buffer.rs:86-99 | enter inserts a newline at the cursor of the joined text |
| `TextBuffer.DeleteIsFlat` | editor_core/src/buffer.rs:102-114 | deleting removes the character under the cursor of the joined text |
| `TextBuffer.DeleteLineIsFlat` | editor_core/src/buffer.rs:137-149 | deleting a line removes from the joined text its characters with the newline after it, for the last line the one before it, and for the only line nothing else |
| `TextBuffer.JoinIsFlat` | editor_core/src/buffer.rs:124-130 | joining two lines removes the newline between them |
| `TextBuffer.BackSpaceIsFlat` | editor_core/src/buffer.rs:118-134 | backspace removes the character before the cursor wherever lines break, and refuses only at the very start |
| `TextBuffer.SaveLoadRoundTrip` | editor_core/src/buffer.rs:41-52 | loading what was saved gives the same lines if and only if no line holds a newline, none but the last ends in a carriage return, and the last of several is not empty |
| `TextBuffer.TrailingEmptyLineIsLost` | editor_core/src/buffer.rs:41-52 | the lines "a" and "" come back as "a" alone |
| `TextBuffer.FromStringHasLine` | editor_core/src/buffer.rs:41-48 | a loaded buffer has at least one line and no newline inside a line |
| `TextBuffer.FileLoadsAsItsLines` | editor_core/src/buffer.rs:41-48 | a file whose lines end in newlines or in carriage returns and newlines loads as those lines if and only if no line ending in a carriage return of its own is followed by a bare newline |
| `TextBuffer.BackSpaceUndoesInsert` | editor_core/src/buffer.rs:71-134 | backspacing undoes an insertion, position included |
| `TextBuffer.BackSpaceUndoesSplit` | editor_core/src/buffer.rs:86-134 | backspacing undoes a line split, position included |
| `TextBuffer.Buffer.constructor` | editor_core/src/buffer.rs:35-39 | a new buffer is one empty line |
| `TextBuffer.Buffer.InsertChar` | editor_core/src/buffer.rs:71-83 | succeeds exactly inside the text and then inserts, else changes nothing |
| `TextBuffer.Buffer.InsertNewline` | editor_core/src/buffer.rs:86-99 | succeeds exactly inside the text and then splits the line, else changes nothing |
| `TextBuffer.Buffer.DeleteChar` | editor_core/src/buffer.rs:102-114 | succeeds exactly on a character and then removes it, else changes nothing |
| `TextBuffer.Buffer.BackSpace` | editor_core/src/buffer.rs:118-134 | removes the character or line break before the position and returns where the cursor goes, else changes nothing |
| `TextBuffer.Buffer.DeleteLine` | editor_core/src/buffer.rs:137-149 | removes an existing line, emptying the only one, else changes nothing |
| `EditorScreen.ReachableStatesArePrintable` | kernel_bootstrap/src/minimal_editor.rs:274-288 | every state the editor reaches from typed keys gives a viewport the renderer can draw: no line of it breaks |
| `SyncState.MergeKeepsEntries` | distributed_storage/src/lib.rs:97-112 | merging keeps the multiset of entries |
| `SyncState.OrderFreeIffTopsAgree` | distributed_storage/src/lib.rs:114-126 | all states holding the same entries, however they are spread over logs, compact alike if and only if no two different entries of an object share its largest timestamp |
| `SyncState.LatestIsTop` | distributed_storage/src/lib.rs:114-126 | compaction keeps, for exactly the objects present, an entry none of its object is later than |
| `SyncState.CompactsToIff` | distributed_storage/src/lib.rs:97-126 | all device orders of a merge compact to a given map if and only if it has exactly the objects present and holds every entry that some device's merged log would keep and nothing else outdates |
| `SyncState.MergeCommutesIff` | distributed_storage/src/lib.rs:97-126 | merging either way round, under any device orders, compacts to the same map if and only if per object all devices that can decide it, on either side's merge, decide for the same entry |
| `SyncState.DeviceOrderFreeIff` | distributed_storage/src/lib.rs:106-126 | one and the same merge compacts alike under all orders of its device map if and only if per object all devices that can decide it decide for the same entry |
| `SyncState.MergeAssociatesIff` | distributed_storage/src/lib.rs:97-126 | merging three states in either grouping, under any device orders, compacts to the same map if and only if per object there is one such entry among the three |
| `SyncState.MergeIdempotentIff` | distributed_storage/src/lib.rs:97-126 | merging a state with itself changes nothing, under any device order, if and only if the state's own compaction already holds every such entry |
| `SyncState.MergeTakesLaterIff` | distributed_storage/src/lib.rs:97-126 | every merge compacts to the per-object later of the two compacted states if and only if that map holds every such entry |
| `SyncState.MergeCommutes` | distributed_storage/src/lib.rs:97-126 | in particular, when largest timestamps are unique per object, compaction does not depend on which state is merged into which |
| `SyncState.MergeAssociates` | distributed_storage/src/lib.rs:97-126 | nor on how three states are grouped |
| `SyncState.MergeIdempotent` | distributed_storage/src/lib.rs:97-126 | merging a state with itself compacts to the same map |
| `SyncState.MergeTakesLater` | distributed_storage/src/lib.rs:97-126 | compaction after merging is the per-object later of the two compacted states |
| `SyncState.TiedMergesDiffer` | distributed_storage/src/lib.rs:97-126 | two different entries of one object with one timestamp make the two merge orders disagree |
| `SyncState.TiedDevicesDiffer` | distributed_storage/src/lib.rs:106-126 | on two devices, two different entries of one object with one timestamp make one and the same merge compact differently under its two device orders |
| `SyncState.TiesInOneLogCommute` | distributed_storage/src/lib.rs:97-126 | ties within a single log do not disturb merging it with an empty state: the converse of unique timestamps fails |
| `SyncState.State.constructor` | distributed_storage/src/lib.rs:68-71 | a new state has no logs |
| `SyncState.State.AddDevice` | distributed_storage/src/lib.rs:80-85 | adds an empty log at the end |
| `SyncState.State.Append` | distributed_storage/src/lib.rs:87-95 | appends to the first log of that device, or fails and changes nothing when there is none |
| `SyncState.AppendedComesLast` | distributed_storage/src/lib.rs:87-95 | an appended entry comes after all its device has in its first log and before what later logs of the device hold; other devices keep theirs |
| `SyncState.AppendedIsTaken` | distributed_storage/src/lib.rs:87-126 | in a device's only log it then replaces what the device held of its object unless that is newer |
| `SyncState.Merge` | distributed_storage/src/lib.rs:97-112 | the loop through a map of devices gives one log per device holding first its own and then the other state's entries, in any map order |
| `SyncState.LayOut` | distributed_storage/src/lib.rs:106-111 | the map of merged logs is laid out as one log per device |
| `SyncState.CompactLogs` | distributed_storage/src/lib.rs:114-126 | the loop computes that compaction; every object present is in it with a largest timestamp |
| `Rasterizer.DrawOnBoth` | graphics_rasterizer/src/lib.rs:114-452 | clears, fills, borders and texts beginning with a clear, then more of them through a scissor: the RGBA buffer shows the last colour painted at each pixel; a linear framebuffer of either format, with any stride of at least the width, shows the same pixel if and only if that colour is opaque, so the same picture when all calls are; its row padding is untouched |
| `Rasterizer.DrawClipped` | graphics_rasterizer/src/lib.rs:402-424 | drawing through a scissor changes nothing outside it and what plain drawing would inside it |
| `Rasterizer.ClippingComposes` | graphics_rasterizer/src/lib.rs:402-424 | plain drawing followed by scissored drawing shows, pixel by pixel, the last colour painted there |
| `Rasterizer.CompositeShows` | graphics_rasterizer/src/lib.rs:204-216 | what is then read back is that colour, made opaque where the layout keeps no alpha |
| `Rasterizer.ReadsBackIffOpaque` | graphics_rasterizer/src/lib.rs:204-216 | a colour reads back as written if and only if the layout keeps alpha or the colour is opaque |
| `Rasterizer.LayoutsAsWords` | graphics_rasterizer/src/lib.rs:204-216 | the two linear formats are the little-endian words 0x00RRGGBB and 0x00BBGGRR, and the plain buffer holds red, green, blue and alpha in turn |
| `Rasterizer.TransparencyIsLost` | graphics_rasterizer/src/lib.rs:204-216 | a fully transparent colour comes back opaque from the 32-bit RGB layout |
| `Rasterizer.DistinctIffStrideCovers` | graphics_rasterizer/src/lib.rs:268-274 | different pixels have different bytes if and only if the stride covers the width or there is at most one row |
| `Rasterizer.IntersectIsCommon` | graphics_rasterizer/src/lib.rs:53-62 | the intersection contains exactly the common points, and is absent when there are none |
| `Rasterizer.Target.constructor` | graphics_rasterizer/src/lib.rs:239-262 | a target over a byte buffer large enough for its geometry |
| `Rasterizer.Target.Scissored` | graphics_rasterizer/src/lib.rs:233-236 | the same buffer behind one more scissor |
| `Rasterizer.Target.WritePixel` | graphics_rasterizer/src/lib.rs:342-424 | encodes into the four bytes of an open pixel and changes no other byte |
| `Rasterizer.Target.Pixel` | graphics_rasterizer/src/lib.rs:363-424 | decodes an open pixel, and answers nothing outside |
| `Rasterizer.Target.ClearAll` | graphics_rasterizer/src/lib.rs:114-120 | paints every open pixel |
| `Rasterizer.Target.FillRect` | graphics_rasterizer/src/lib.rs:122-134 | paints exactly the open pixels of the rectangle |
| `Rasterizer.Target.DrawBorder` | graphics_rasterizer/src/lib.rs:136-168 | paints exactly the open pixels of the border |
| `Rasterizer.BorderIsFrame` | graphics_rasterizer/src/lib.rs:136-168 | the border is the rectangle without the one inside it by the thickness on every side, all of it when nothing is left inside |
| `Rasterizer.Target.DrawGlyph` | graphics_rasterizer/src/lib.rs:430-452 | paints exactly the open pixels set in the glyph |
| `Rasterizer.Target.DrawText` | graphics_rasterizer/src/lib.rs:174-190 | paints exactly the open pixels set in the text's glyphs, though it stops early at the right edge |
| `Rasterizer.TextIsGlyphs` | graphics_rasterizer/src/lib.rs:174-190 | a text has ink at a point if and only if the glyph of one of its characters has, each an advance further right |
| `Rasterizer.Target.DrawAll` | graphics_rasterizer/src/lib.rs:114-190 | a sequence of operations leaves in every open pixel the last colour that covers it |
| `Rasterizer.LastColorIsLast` | graphics_rasterizer/src/lib.rs:114-190 | that colour is the one of a call that covers the pixel with no later call covering it, and there is none if no call does |
| `GlyphCache.LookUpAll` | kernel_bootstrap/src/framebuffer.rs:202-248 | every answer of any sequence of lookups is the direct rasterization of that character in those colours |
| `GlyphCache.Cache.constructor` | kernel_bootstrap/src/framebuffer.rs:172-200 | a new cache has two invalid slots and clock zero |
| `GlyphCache.Cache.GlyphFor` | kernel_bootstrap/src/framebuffer.rs:202-248 | answers the direct rasterization, and the slots are those of the replacement rule |
| `GlyphCache.Cache.Prepare` | kernel_bootstrap/src/framebuffer.rs:218-247 | a slot taken for a character and colours answers exactly and keeps every glyph in it exact |
| `GlyphCache.FillScanlines` | kernel_bootstrap/src/framebuffer.rs:235-243 | the nested loops fill the direct rasterization |
| `GlyphCache.GlyphReadsBack` | kernel_bootstrap/src/framebuffer.rs:235-243 | read from the left, foreground as one, a scanline spells its bitmap row highest bit first |
| `GlyphCache.UnknownIsQuestionMark` | kernel_bootstrap/src/framebuffer.rs:203-207 | a character the font lacks is drawn as a question mark |
| `GlyphCache.LastTwoStayIff` | kernel_bootstrap/src/framebuffer.rs:208-227 | the last colour pair is always held; the one before it is held if and only if there were at least three lookups or the two are equal |
| `GlyphCache.StampsFollow` | kernel_bootstrap/src/framebuffer.rs:208-227 | after any lookups the slot of the last one carries the clock and the other is older |
| `Ticks.PollAll` | hal_x86_64/src/tick.rs:98-104 | the total reported at every poll never exceeds the counter steps since the first poll, and equals them if and only if no two consecutive polls so far were a reload period apart or more |
| `Ticks.ExactIffPrompt` | hal_x86_64/src/timer.rs:219-235 | the accumulated count equals the elapsed steps if and only if every poll came within a reload period of the one before |
| `Ticks.LatePollCountsNothing` | hal_x86_64/src/timer.rs:219-235 | a poll exactly one reload period after the first counts nothing |
| `Ticks.DeltaIsElapsed` | hal_x86_64/src/timer.rs:219-235 | the difference of two readings of the falling counter is the elapsed steps modulo the reload value |
| `Ticks.PitTimer.constructor` | hal_x86_64/src/timer.rs:149-158 | a new timer is uninitialised with no ticks |
| `Ticks.PitTimer.UpdateTicks` | hal_x86_64/src/timer.rs:219-235 | adds the steps between two readings, across the reload |
| `Ticks.PitTimer.PollTicks` | hal_x86_64/src/timer.rs:239-249 | the first poll only remembers the reading and answers 0, later polls answer the accumulated ticks |
| `Ticks.KernelTickCounter.constructor` | hal_x86_64/src/tick.rs:89-95 | a new counter has seen no ticks |
| `Ticks.KernelTickCounter.Poll` | hal_x86_64/src/tick.rs:98-104 | adds what the timer gained since the last poll, saturating at both ends |
| `Ticks.CountAll` | hal_x86_64/src/tick.rs:98-104 | a timer and counter polled at any times report the accumulated count of each |

## Left out

- Commit safety under partial delivery: `leader_commit` is fixed before the quorum is counted, so a node's commit index promises nothing there; what a quorum accepted is proved durable instead, and commit indices are stated for the coded cluster only.
- Membership changes: nodes added later are never back-filled; runs start from fresh nodes.
- Overflow of 64-bit terms, indices and timestamps in consensus and sync; identifiers are numbers assumed distinct instead of UUIDs.
- The cluster's map owns node values; a handler runs on a node object made from the value, so aliasing between nodes is not modelled.
- Registers, volatile access, notification and memory ordering of the virtio device; request headers, status bytes and data; the length of a used element; bounds checks of block numbers.
- VirtioDriver.Driver.constructor: requires a queue size dividing 65536, which VIRTIO demands as a power of two and the driver takes from the device unchecked; for any other size the rings fail as `Ring.PushesIff` says. The allocator and protocol theorems hold for every size.
- VirtqueueObject.Queue.constructor: descriptor fields other than the link start as zero, where the original leaves the memory as it finds it; an empty queue is not modelled.
- VirtqueueObject.Queue.FreeDesc: requires a chain of linked descriptors from the head, since the walk indexes the table by the links.
- RenderRuns.RenderSession: requires displays with at least one row and one column, and lines without newlines, which `EditorScreen.ReachableStatesArePrintable` proves of the editor.
- The framebuffer as a display: pixels behind a cell are abstracted to the cell; non-ASCII text, where bytes and characters differ.
- TextBuffer.Buffer.BackSpace: requires a position inside the text, because the original indexes the line unchecked when it joins lines.
- Rasterizer.Target.constructor: requires a stride of at least the width and a large enough buffer; with a shorter stride pixels overlap, as `Rasterizer.DistinctIffStrideCovers` says.
- Ticks.PollAll: requires fewer than 2^64 counter steps in all, beyond which the timer's unchecked addition overflows.
- Ticks.CountAll: requires the same, for the same reason.
- The timer's hardware: a reading is taken to fall by one per counter step from 1193 to 1; port accesses are the reading passed in.
- EditorHost.MinimalEditor.ProcessByte: a request to save is not acted on here; saving, and the quitting that follows saving, are an event of their own in `EditorRuns`. A viewport of no rows, on which the original underflows, is excluded.
- Saving files and status messages of the hosting editor; font bitmaps, which are parameters.
- Page tables, interrupts, other timers and the syscall layer: register and port access, with no state kept over runs.
- Scrollback buffers and the combined view, whose offsets are not kept consistent by the code that owns them.
- Serialization, settings, themes and packages: thin wrappers over libraries.
- Statistics and debug assertions of renderer and cache.
