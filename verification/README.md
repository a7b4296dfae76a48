# Verified model of the eviction engine, the backward cursors and three smaller protocols

This project models parts of WiredTiger 11.1.0 in Dafny and proves properties of them.

- **LRU eviction.** One server fills two candidate queues, any thread may append to a third, urgent
  queue, workers and application threads take pages out and evict them, and a thread may turn
  eviction off for a tree and wait for it to drain.  `LruQueue` and `QueueRefill` say what each
  lock-protected region does to a queue, `EvictQueue` and `EvictCache` prove the program's loops over
  its arrays against them, and `EvictProtocol`, `EvictInvariant`, `EvictSteps` and `EvictRuns`
  interleave the regions, compare-and-swaps and single reads and writes of all threads and prove what
  every reachable state satisfies.
- **Evicting one page.** `ChildCheck` is the race between the scan of an internal page's children and
  the cursors inside them; `EvictPage` is the content argument over reference states.
- **Backward cursors.** `SkipList` moves a skip-list finger back while other threads insert;
  `RowScan`, `ColumnScan` and `ColumnLeaf` show that the cursors' fast forms refine the plain scans of
  `Records` and of record numbers one at a time, across pages and across prepare-conflict retries.
- **Worker tuning** (`TuneWorkers`), **Bloom filters** (`Bloom`), **overflow values** (`Overflow`) and
  the load generator's **throttle** (`Throttle`).

Loops and in-place updates of the program are methods proved against specification functions;
protocols are transition systems whose runs start at an initial state and take one enabled step at a
time.

## Where the code does not do what its comments say

Each of these is proved as an if-and-only-if with the failing case written out.

- Turning eviction off raises the disabled count with a plain increment, while the release decrements
  it atomically without the lock.  Exclusion, and that no queue entry dangles, holds exactly when
  callers keep the last release of a tree out of other requests for it; the count itself is right
  exactly when they keep every release out (`EvictRuns.SafeExactly`, `EvictRuns.NoneDanglesExactly`,
  `EvictRuns.BalancedExactly`).
- The child scans catch every cursor exactly when cursors keep their direction or there is at most one
  child (`ChildCheck.EmptyExactlyWhen`).
- A column cursor that searches for its node finds the node before it exactly when the recorded tail
  has caught up: a lagging tail makes it skip that tail, and a tail not recorded yet makes it end at
  the last node of the list (`SkipList.Finger.SkipPrev`, `SkipList.SkippedRecord`,
  `SkipList.RepeatedRecord`).
- After a prepare conflict in the append list, a retry that exhausts the list passes its restart flag
  on to the page, whose records are then not returned.  That can happen exactly when the first
  appended record is not one to return (`ColumnLeaf.LeafCursor.CompleteExactly`,
  `ColumnLeaf.LostPage`).
- Two failures of an eviction cannot be undone by its error path (`EvictPage.Ref.Evict`).
- An overflow cell's type is unpacked before the lock is taken, so blocks are freed once exactly when
  discards of a cell do not overlap, and discarding a removed cell keeps the lock
  (`Overflow.FreedOnceExactly`, `Overflow.NeverStuckExactly`).
- The server can step over an entry it has not examined (`LruQueue.LeavesBehindExactly`).

The comment on discarding overflow cells asks that keys be instantiated first.  That is an obligation
on callers, because readers do not test the removed marker of keys, and `Overflow.SafeExactly` shows
it is exactly what is needed.

## Model

| member | source | states |
|---|---|---|
| EvictRuns.ExclusiveAccess | wiredtiger-11.1.0/evict_lru.c:933-984 | In every world the program can reach while the last holder of a tree does not release it between another request's read and store of the count, a tree for which more requests have returned than were released has no queue entry in any slot of any queue, no saved walk point, is not being walked, and has no handed-out page still being evicted |
| EvictRuns.SafeExactly | wiredtiger-11.1.0/evict_lru.c:946-1028 | Over all interleavings of the program, which raises the count by a load and a later store and lowers it without the walk lock, that exclusion holds if and only if callers keep such last releases out of other requests |
| EvictRuns.BalancedExactly | wiredtiger-11.1.0/evict_lru.c:946-1028 | The count equals the requests that returned and were not released, so that eviction comes on again, in every reachable world if and only if callers keep every release out of the read and store of other requests |
| EvictRuns.ReleaseIsLost | wiredtiger-11.1.0/evict_lru.c:947-1027 | The run in which a release that is not the last falls in between: exclusion still holds but the decrement is lost and the count stays too high |
| EvictRuns.StoreLosesRelease | wiredtiger-11.1.0/evict_lru.c:947-1027 | The run that breaks exclusion: the last release falls between the load and the store of a second request, a page is queued, and the second request returns as if eviction were off |
| EvictRuns.NoDanglingEntry | wiredtiger-11.1.0/evict_page.c:193-206 | With callers that careful, every live slot of every reachable world names a page that is still in memory, and no eviction of that page has got past taking it off the queues |
| EvictRuns.NoneDanglesExactly | wiredtiger-11.1.0/evict_page.c:193-206 | No entry dangles in any reachable world if and only if callers are that careful; otherwise the run above goes on to a close that frees a queued page |
| EvictRuns.FlaggedMeansNamedOnce | wiredtiger-11.1.0/evict_lru.c:1772-1799 | In every reachable world, whatever callers do, a page carries the LRU flag if and only if one slot names it or the walk that just won the flag is about to; two slots never name the same page, and a naming slot lies below its queue's maximum |
| EvictRuns.SearchEndsUnflagged | wiredtiger-11.1.0/evict_lru.c:186-201 | When the per-page search has passed all three queues the flag is already clear, so the assertion that ends it cannot fail, whatever other threads and callers do meanwhile |
| EvictRuns.WalkWritesEmptySlot | wiredtiger-11.1.0/evict_lru.c:2269-2273 | Whenever the walk has won a page's flag, the slot it is about to write exists and is empty |
| EvictRuns.UrgentConserved | wiredtiger-11.1.0/evict_lru.c:2843-2863 | Over every run, the pages ever pushed as urgent are, with multiplicity, those still queued, those handed out, those a take dropped because their reference could not be locked, those cleared by their own eviction and those cleared with their tree; nothing live lies behind the position, and a drained queue holds nothing |
| EvictRuns.PagesConserved | wiredtiger-11.1.0/evict_page.c:141-336 | Over every run, the pages read in are, with multiplicity, those still in memory, those locked, those an eviction discarded and those freed with their tree; and the locked pages are exactly those some eviction holds |
| EvictSteps.StepKeeps | wiredtiger-11.1.0/evict_lru.c:875-984 | Every step of every thread keeps the joint invariant of queues, flags, hazard pointers, locks and busy counts, and, as far as callers are careful about releases, that of the disabled counts and of what they exclude |
| EvictSteps.RunsKeep | wiredtiger-11.1.0/evict_lru.c:875-984 | The invariant holds at the end of every run of the program as written, with its separate load and store |
| EvictSteps.KeepsOnDrained | wiredtiger-11.1.0/evict_lru.c:980-984 | Waiting for the busy count of the tree to reach zero is what makes exclusion hold: none of its pages is then with an eviction that took it from a queue |
| EvictSteps.KeepsUrgentPush | wiredtiger-11.1.0/evict_lru.c:2837-2863 | An urgent push by a thread with a hazard pointer keeps the invariant: with careful callers its tree is neither off nor being turned off, and no eviction has already unqueued the page |
| EvictSteps.KeepsHandOut | wiredtiger-11.1.0/evict_lru.c:2491-2562 | Handing a page out keeps the invariant, including the busy count and the agreement of flags and slots |
| EvictSteps.KeepsVisitWrite | wiredtiger-11.1.0/evict_lru.c:1782-1799 | Winning the flag and writing the slot are two steps; between them no other thread can queue, evict or exclude the page |
| EvictSteps.TurnedOffUnflagged | wiredtiger-11.1.0/evict_lru.c:962-975 | With careful callers no page of a tree whose eviction is off carries the flag, so its pages can be freed without searching the queues |
| EvictSteps.KeepsOnStore | wiredtiger-11.1.0/evict_lru.c:947-951 | A request that read a raised count finds the tree still off when it returns at once; one that read zero is the first and goes on |
| EvictInvariant.RemovalAgrees | wiredtiger-11.1.0/evict_lru.c:155-164 | Clearing slots together with the flags of the pages they name keeps every flagged page named exactly once |
| LruQueue.TakeBag | wiredtiger-11.1.0/evict_lru.c:2491-2562 | A take loses nothing: what was queued is still queued, is handed out, or was dropped because its reference was not in the in-memory state; the page handed out was lockable and not declined |
| LruQueue.LeavesBehindExactly | wiredtiger-11.1.0/evict_lru.c:2491-2562 | A take steps over an entry it has not examined if and only if it may look at fewer slots than there are candidates, none of those it looks at stops it, and the slot behind them is live |
| LruQueue.FullTakeLeavesNothing | wiredtiger-11.1.0/evict_lru.c:2491-2562 | A caller allowed to look at every candidate never steps over one |
| LruQueue.ServerStepsOver | wiredtiger-11.1.0/evict_lru.c:2491-2562 | The server on an ordinary queue can: a queue of two pages it leaves half-examined with a live entry behind the position |
| LruQueue.UrgentAppends | wiredtiger-11.1.0/evict_lru.c:2847-2863 | An urgent append writes an empty slot, so it displaces no queued page, and adds exactly its page |
| LruQueue.UrgentTakes | wiredtiger-11.1.0/evict_lru.c:2491-2562 | A take from the urgent queue leaves nothing live behind the new position |
| LruQueue.UrgentNotMissed | wiredtiger-11.1.0/evict_lru.c:2491-2562 | An urgent take that declines nothing comes back empty-handed if and only if no page still queued could be locked |
| LruQueue.ClearsKeepUrgent | wiredtiger-11.1.0/evict_lru.c:967-975 | Per-page and per-tree clears keep the urgent queue's live entries ahead of its position |
| LruQueue.ClearTreeBag | wiredtiger-11.1.0/evict_lru.c:967-975 | The slot loop of exclusive access removes every reference of the tree and no other |
| LruQueue.ClearTreeSplits | wiredtiger-11.1.0/evict_lru.c:967-975 | That loop splits what was queued into the references of the tree, which it drops, and all others |
| LruQueue.ClearRefBag | wiredtiger-11.1.0/evict_lru.c:186-199 | The slot loop of the per-page clear removes the reference once and keeps slots and trees in agreement |
| QueueRefill.RefillReady | wiredtiger-11.1.0/evict_lru.c:1338-1374 | After every refill that reaches the sort, all slots from the entry count up are empty and the count is at most the walk base, however the sort orders ties |
| QueueRefill.RefillBag | wiredtiger-11.1.0/evict_lru.c:1338-1363 | Sorting and trimming lose nothing but the entries beyond the walk base |
| QueueRefill.RefillCandidates | wiredtiger-11.1.0/evict_lru.c:1376-1432 | A non-empty refill offers its fair share from the head of its entries: all of them when aggressive or when all scores are below the first ordinary one, just the leading run of those when it is more than half, and otherwise that run and a third of the rest rounded up; outside debug mode the scores of live entries ascend, kept and trimmed alike, and nothing empty precedes one that scores below the maximum |
| QueueRefill.RefillPacked | wiredtiger-11.1.0/evict_lru.c:1343-1353 | When no live score reaches the largest key, no kept slot is empty |
| EvictQueue.EvictQueue.PushCandidate | wiredtiger-11.1.0/evict_lru.c:1772-1799 | Fails with nothing changed if and only if the page is already flagged; otherwise writes tree, page and score into the slot, raises the maximum, flags the page and unflags the page it displaced, keeping flags and slots in agreement |
| EvictQueue.EvictQueue.ListClear | wiredtiger-11.1.0/evict_lru.c:155-164 | Empties one slot and clears the flag of the page it named |
| EvictQueue.EvictQueue.ClearPage | wiredtiger-11.1.0/evict_lru.c:186-199 | The loop finds the page if and only if the queue names it, and clears that entry and flag only |
| EvictQueue.EvictQueue.ClearFile | wiredtiger-11.1.0/evict_lru.c:967-975 | The loop drops exactly the entries of one tree and the flags of exactly their pages |
| EvictQueue.EvictQueue.PushUrgent | wiredtiger-11.1.0/evict_lru.c:2834-2864 | Queues the page if and only if it is unflagged, its tree is enabled and the queue is drained or has a slot left; writes it behind the candidates, or into the first slot of a drained queue, and moves position and count accordingly |
| EvictQueue.EvictQueue.ScanCandidates | wiredtiger-11.1.0/evict_lru.c:2499-2540 | The candidate loop stops where the specification of one caller's scan says, having emptied exactly the slots it passed and cleared exactly their flags |
| EvictQueue.EvictQueue.GetRef | wiredtiger-11.1.0/evict_lru.c:2487-2564 | Hands out the page, moves the position to a slot below the candidate count or to null, locks the reference and counts its tree busy, all as the take specification says |
| EvictQueue.EvictQueue.WalkTree | wiredtiger-11.1.0/evict_lru.c:1936-2288 | Writes into consecutive empty slots, in the order it meets them, the first pages of the tree that are wanted and unflagged, as many as are asked for, flags exactly those, and leaves every other slot alone |
| EvictQueue.PicksAre | wiredtiger-11.1.0/evict_lru.c:2040-2268 | What a visit queues it met and wanted, was unflagged, and is queued once; if it queues fewer than asked for, every wanted page it met ends up flagged |
| EvictQueue.PicksInOrder | wiredtiger-11.1.0/evict_lru.c:2040-2268 | A visit that meets more pages queues the same ones first: pages are picked in the order they are met |
| EvictQueue.EvictQueue.Walk | wiredtiger-11.1.0/evict_lru.c:1554-1709 | A walk over the trees writes exactly the pages its visits pick, each with its tree and score, into the slots after the old entries, at most one increment of them, none beyond the last slot and none once the queue holds more than half the pages in use, and keeps every slot from the new count up empty |
| EvictQueue.RoomIsMost | wiredtiger-11.1.0/evict_lru.c:1554-1568 | The room for a walk is the largest number that keeps those three limits |
| EvictQueue.WalkPicksAre | wiredtiger-11.1.0/evict_lru.c:1568-1709 | The pages of a whole walk were met and wanted by some visit, unflagged before, and are all different |
| EvictQueue.WalkPicksMost | wiredtiger-11.1.0/evict_lru.c:1568-1709 | A walk that does not fill its room leaves no wanted page unflagged in any tree it visits whose target is at least that room |
| EvictQueue.EvictQueue.CountCandidates | wiredtiger-11.1.0/evict_lru.c:1376-1428 | The loop over leading scores offers the fair share described above, stated on the scores |
| EvictQueue.EvictQueue.SortAndTrim | wiredtiger-11.1.0/evict_lru.c:1328-1433 | The sort, both trim loops and the candidate count together compute the refill specification, keep flags and slots in agreement, and offer the fair share of entries whose scores ascend |
| EvictQueue.EvictQueue.LruWalk | wiredtiger-11.1.0/evict_lru.c:1318-1433 | One refill leaves the queue sorted by score and trimmed from what it had and what the walk picked, offers its fair share from the head, and is ready for the next, so refills can be repeated for ever |
| EvictQueue.RefilledHolds | wiredtiger-11.1.0/evict_lru.c:1318-1374 | A refilled queue names nothing but what it had and what the walk picked, and all of that unless it is more than is tracked between walks |
| EvictQueue.OffersLowest | wiredtiger-11.1.0/evict_lru.c:1338-1433 | So outside debug mode every page offered scores no more than any page left out |
| EvictCache.EvictCache.ListClearPage | wiredtiger-11.1.0/evict_lru.c:171-203 | The three-queue search leaves the page unflagged and in no queue, and every other entry and flag as it was |
| EvictCache.EvictCache.DiscardFile | wiredtiger-11.1.0/evict_lru.c:966-976 | After the three queue loops of exclusive access no entry of the tree is queued anywhere and every other entry still is |
| EvictCache.EvictCache.ChooseQueue | wiredtiger-11.1.0/evict_lru.c:2387-2462 | The urgent queue is chosen if and only if the caller may use it and it is not empty; otherwise the current one, if and only if it does not look empty to the caller and the server need not refill first; the ordinary queues are switched exactly when the current one is empty and the other is not |
| EvictCache.EvictCache.GetRef | wiredtiger-11.1.0/evict_lru.c:2366-2565 | Hands out the first page of the queue it takes from that can be locked, within the caller's limit, unless a dirty page this caller must leave alone comes first; a dirty page goes only to workers, to anybody where there are none, and to application threads held up by dirty data or updates; that page was queued and lockable and is queued no more; a caller allowed the urgent queue gets an urgent page whenever one can be locked |
| EvictCache.HandedServes | wiredtiger-11.1.0/evict_lru.c:2491-2562 | What a take hands out is that first lockable page of the slots from the position to the limit, and nothing only if there is none or a page to leave alone comes before it |
| EvictCache.EvictCache.HandsRight | wiredtiger-11.1.0/evict_lru.c:2404-2526 | Which queue serves a caller, which pages it must leave alone and when the server refills first, stated on the queues and the cache's flags |
| EvictCache.EvictCache.PageEvictUrgent | wiredtiger-11.1.0/evict_lru.c:2821-2863 | Queues a page if and only if it is unflagged, its tree is enabled and the urgent queue is drained or has room, and displaces nobody |
| EvictCache.EvictCache.LruWalk | wiredtiger-11.1.0/evict_lru.c:1251-1433 | A turn of the server refills the ordinary queue that is due, or the other one when that is full and the other is not, and skips the turn exactly when the queue is full and has not looked empty lately; the queues take turns, the other two stay as they are, and the refilled one is sorted by score and trimmed from what it had and what the walk picked, and offers its fair share |
| ChildCheck.NoCursorLeft | wiredtiger-11.1.0/evict_page.c:566-593 | For any number of children and cursors that keep their direction, once both scans have seen only on-disk or deleted children no cursor is left among them |
| ChildCheck.EmptyExactlyWhen | wiredtiger-11.1.0/evict_page.c:566-593 | The two scans guarantee that if and only if no cursor may turn round or there are fewer than two children |
| ChildCheck.DodgesBothPasses | wiredtiger-11.1.0/evict_page.c:566-593 | The run in which a cursor that turns round between the passes is missed by both |
| ChildCheck.StatesAsFound | wiredtiger-11.1.0/evict_page.c:606-675 | At every moment the third pass holds no child, the states are exactly what the other threads left; it never keeps a lock, whatever the outcome |
| ChildCheck.PassedResolved | wiredtiger-11.1.0/evict_page.c:606-675 | Outside checkpoint readers, whenever a check passes in any interleaving, the third pass has seen every child on disk, or deleted and then been told that its truncation is visible |
| ChildCheck.PassesAlone | wiredtiger-11.1.0/evict_page.c:560-677 | Left alone the check comes to an end, changes nothing, and passes if and only if every child is on disk or deleted and, outside checkpoint readers, every truncation is settled |
| ChildCheck.Check | wiredtiger-11.1.0/evict_page.c:560-677 | With the other threads changing the states between any two looks, the three passes succeed if and only if every child is on disk or deleted at the moment each scan looks at it and, outside checkpoint readers, at the moment of the third look is on disk or deleted by a truncation that is committed, not raced and visible as the session needs; the states are left as the other threads left them |
| ChildCheck.Visible | wiredtiger-11.1.0/evict_page.c:641-668 | The cascade of visibility questions amounts to: committed, visible to the session's snapshot if it has one, and globally visible if it has none and is not an eviction thread |
| EvictPage.Ref.Evict | wiredtiger-11.1.0/evict_page.c:141-336 | A page another thread uses is not evicted unless the tree is being closed: the call reports busy and page, block address and deleted count stay. A live non-root page is evicted if and only if nobody uses it, the review passes, and the split asked for is made or reconciliation, where needed, and the installation of its result succeed; root pages and dead trees need less. Success leaves the reference denoting the same records (on disk, deleted, split or rewritten); failure restores the previous state, and leaves a page with its records that can be evicted again if and only if the failure is not one of two irreversible ones |
| EvictPage.Ref.DirtyUpdate | wiredtiger-11.1.0/evict_page.c:459-553 | Each reconciliation result is installed so that the reference denotes the page's records, if and only if the calls that result needs succeed; a failure leaves page and address as they were exactly unless it is irreversible |
| EvictPage.Ref.CleanUpdate | wiredtiger-11.1.0/evict_page.c:404-439 | A clean page goes to disk, back to deleted when it was an instantiated deletion, or to deleted when it has no block; it fails exactly when a needed reverse split fails for good |
| EvictPage.Ref.DeleteRef | wiredtiger-11.1.0/evict_page.c:343-397 | Leaves the reference deleted or consumed by a reverse split, which is tried when more than a tenth of several references are deleted, unless splits are off, the tree is being closed or the page is the leftmost of a column store; fails if and only if it is tried and fails with an error other than busy |
| EvictPage.FailedRewrite | wiredtiger-11.1.0/evict_page.c:516-545 | The first irreversible failure: the replacement block is already installed as the address when the rewrite of the page fails |
| EvictPage.FailedReverse | wiredtiger-11.1.0/evict_page.c:431-434 | The second: the page is discarded before the reverse split fails, and the error path gives the reference back as in memory without a page |
| SkipList.Finger.SkipPrev | wiredtiger-11.1.0/wiredtiger-11.1.0/src/btree/bt_curprev.c:35-116 | Under inserts between any two pointer reads, the node found came directly before the starting node at some moment of the call, or the starting node was first then; a call that has to search with a bare stack is right if and only if it is not a column search whose recorded tail is null or lags behind the node; with inserts at rest and an exact stack there is one attempt and the stack is exact again; every call ends once inserts cease |
| SkipList.Finger.RunToEnd | wiredtiger-11.1.0/wiredtiger-11.1.0/src/btree/bt_curprev.c:40-115 | A column search that finds no tail comes back null, and the call then ends at the last node of the list, or reads through the null node exactly if a node was linked behind it before that was confirmed |
| SkipList.Finger.ListBack | wiredtiger-11.1.0/wiredtiger-11.1.0/src/btree/bt_curprev.c:49-114 | Repeated calls list everything before the starting node in reverse and end with a null position |
| SkipList.Finger.StepBack | wiredtiger-11.1.0/wiredtiger-11.1.0/src/btree/bt_curprev.c:69-115 | One attempt either finds such a predecessor or leaves a stack that forces a new search |
| SkipList.Finger.WalkDown | wiredtiger-11.1.0/wiredtiger-11.1.0/src/btree/bt_curprev.c:90-109 | The walk over the remaining levels ends just before the current node on every level, or runs off a list |
| SkipList.Finger.SearchLevels | wiredtiger-11.1.0/wiredtiger-11.1.0/src/include/column_inline.h:187-222 | The level-by-level search finds a linked node despite concurrent inserts, and at rest leaves every level at the last node not after it |
| SkipList.Finger.Search | wiredtiger-11.1.0/wiredtiger-11.1.0/src/include/column_inline.h:165-222 | The column search, with its fast path over recorded tails, gives up on a null tail, and otherwise stays at the node asked for if and only if the recorded tail has caught up with it |
| SkipList.SkippedRecord | wiredtiger-11.1.0/wiredtiger-11.1.0/src/include/column_inline.h:176-185 | The consequence: stepping back from record 2 while the recorded tail still is record 1 finds nothing, so record 1 is skipped |
| SkipList.RepeatedRecord | wiredtiger-11.1.0/wiredtiger-11.1.0/src/include/column_inline.h:173-174 | The other consequence: stepping back from record 1 of a list whose tail is not recorded yet ends at record 1 again |
| SkipList.FoundForOrigin | wiredtiger-11.1.0/wiredtiger-11.1.0/src/btree/bt_curprev.c:54-61 | The node found comes directly before the starting node if and only if the search kept that node |
| SkipList.EndIsNotBefore | wiredtiger-11.1.0/wiredtiger-11.1.0/src/btree/bt_curprev.c:90-115 | The last node of the list, where a lost call ends, never comes before the starting node |
| SkipList.InsertWritesOnePointer | wiredtiger-11.1.0/wiredtiger-11.1.0/src/btree/bt_curprev.c:11-17 | Inserting into a level changes the one pointer its compare-and-swap writes and gives the new node that pointer's old value |
| SkipList.FollowPrecedes | wiredtiger-11.1.0/wiredtiger-11.1.0/src/btree/bt_curprev.c:108-114 | A pointer leads to a node exactly when it lies in the node's direct predecessor, or in the head when the node is first |
| SkipList.BackOne | wiredtiger-11.1.0/wiredtiger-11.1.0/src/btree/bt_curprev.c:103-114 | A stack just before a node on every level is exact for the node before it |
| ColumnPage.Search | wiredtiger-11.1.0/wiredtiger-11.1.0/src/include/column_inline.h:270-326 | The binary search among repeats and the plain offset find the one cell that covers a record, or nothing exactly past the last cell, and give the start of a run |
| ColumnPage.LastRecnoIsLast | wiredtiger-11.1.0/wiredtiger-11.1.0/src/include/column_inline.h:229-244 | The last record reckoned from the last repeat is the last record of the last cell |
| ColumnPage.OneSlot | wiredtiger-11.1.0/wiredtiger-11.1.0/src/include/column_inline.h:270-326 | Cells do not overlap: a record lies in one slot only |
| ColumnScan.VarCursor.VarPrev | wiredtiger-11.1.0/wiredtiger-11.1.0/src/btree/bt_curprev.c:361-538 | One call returns exactly the record, value or prepare conflict that looking at every record number in turn would meet first, jumps over deleted runs and cached cells notwithstanding: nothing passed over has a visible update, a cell or history value to show or a conflict, and the record returned has the value that updates, restored updates, start and stop visibility and history give it; where that meets the bound, the call reports the bound if and only if it does not jump off the page from a deleted run that begins it |
| ColumnScan.VarCursor.ListPage | wiredtiger-11.1.0/wiredtiger-11.1.0/src/btree/bt_curprev.c:361-538 | Scanning a page, with any finite pattern of prepare conflicts and retries, returns exactly the in-bounds records with something to show, descending: for every record of every cell, the value of its visible update, or else, in a cell not deleted, of its restored update, or else, if no stop is visible, the cell's value or, if its start is not visible, history's |
| ColumnScan.VarCursor.VisitCell | wiredtiger-11.1.0/wiredtiger-11.1.0/src/btree/bt_curprev.c:442-536 | Decoding a cell or reusing its cached value answers a record as the full visibility read would, and keeps the cache right for the whole cell |
| ColumnScan.ScanMeets | wiredtiger-11.1.0/wiredtiger-11.1.0/src/btree/bt_curprev.c:423-508 | The scan specification in those terms: what it comes to is the nearest record below that reads as something, conflicts or is out of bounds |
| ColumnScan.LookReads | wiredtiger-11.1.0/wiredtiger-11.1.0/src/btree/bt_curprev.c:427-508 | A record is shown with a value exactly when that is what it reads as and nothing conflicts |
| ColumnScan.JumpsDown | wiredtiger-11.1.0/wiredtiger-11.1.0/src/btree/bt_curprev.c:460-494 | Jumping over a deleted run to the larger of its start less one and the nearest smaller insert passes no record a scan would return or stop at, and always moves down |
| ColumnScan.UniformExactly | wiredtiger-11.1.0/wiredtiger-11.1.0/src/btree/bt_curprev.c:511-536 | A globally visible cell reads the same for every record without a visible update, whatever the history store holds, if and only if no update restored there by rollback-to-stable says otherwise |
| ColumnScan.ListDownIsEverything | wiredtiger-11.1.0/wiredtiger-11.1.0/src/btree/bt_curprev.c:361-538 | The listing holds exactly the in-bounds records with something to show, with their values, each once, in descending order |
| ColumnScan.ListDownAfter | wiredtiger-11.1.0/wiredtiger-11.1.0/src/btree/bt_curprev.c:398-421 | Meeting a prepared update skips nothing: the rest of the listing is still to come from that record |
| ColumnLeaf.LeafCursor.PagePrev | wiredtiger-11.1.0/wiredtiger-11.1.0/src/btree/bt_curprev.c:768-822 | One pass over a leaf with an append list; when a restart after a prepare conflict walks off the append list, the page's own records are not tried |
| ColumnLeaf.LeafCursor.ListLeaf | wiredtiger-11.1.0/wiredtiger-11.1.0/src/btree/bt_curprev.c:768-822 | With any finite pattern of conflicts and retries, the scan returns the append list and the page, except that the page's records are missing if and only if that pattern makes a restart walk off the append list |
| ColumnLeaf.LeafCursor.CompleteExactly | wiredtiger-11.1.0/wiredtiger-11.1.0/src/btree/bt_curprev.c:299-354 | No pattern of conflicts loses the page's records if and only if it has none to return, or no updates are looked at, or the first appended record, if any, is one to return |
| ColumnLeaf.LostPage | wiredtiger-11.1.0/wiredtiger-11.1.0/src/btree/bt_curprev.c:381-390 | The case: a prepared record in the append list rolls back between two calls, and the record on the page is never returned |
| ColumnLeaf.LeafCursor.AppendPrev | wiredtiger-11.1.0/wiredtiger-11.1.0/src/btree/bt_curprev.c:299-354 | Moving through the append list is the plain backward scan of its records; keys-only callers are answered before bounds are looked at |
| RowScan.RowCursor.RowPrev | wiredtiger-11.1.0/wiredtiger-11.1.0/src/btree/bt_curprev.c:547-706 | One call over the interleaved slots of a leaf returns what the plain backward scan of its records in key order meets first |
| RowScan.BtreeCursor.BtcurPrev | wiredtiger-11.1.0/wiredtiger-11.1.0/src/btree/bt_curprev.c:763-872 | The same across all pages, with the restart flag confined to the page the cursor holds; the record returned is visible and in bounds, and every record between it and the old place is neither to be shown nor prepared |
| RowScan.BtreeCursor.ListAll | wiredtiger-11.1.0/wiredtiger-11.1.0/src/btree/bt_curprev.c:712-927 | Scanning all pages, with any finite pattern of prepare conflicts and retries, returns the same records; of a tree in order exactly the rows and inserts of its pages that are visible and in bounds, each once, in descending key order |
| RowScan.FlatAt | wiredtiger-11.1.0/wiredtiger-11.1.0/src/btree/bt_curprev.c:572-660 | The slot numbering, smallest list, row 0, list 0 and so on, lists the records one slot after the other |
| RowScan.AllSorted | wiredtiger-11.1.0/wiredtiger-11.1.0/src/btree/bt_curprev.c:563-704 | When rows ascend, each list lies between the rows around it and pages hold keys in order, that numbering is key order over the whole tree |
| RowScan.AllHolds | wiredtiger-11.1.0/wiredtiger-11.1.0/src/btree/bt_curprev.c:563-704 | The flattened tree holds exactly the rows and inserts of its pages |
| RowScan.ScanPage | wiredtiger-11.1.0/wiredtiger-11.1.0/src/btree/bt_curprev.c:764-872 | Exhausting a page goes on with the records of the pages before it |
| Records.ListingIsEverything | wiredtiger-11.1.0/wiredtiger-11.1.0/src/btree/bt_curprev.c:712-872 | The listing holds exactly the visible in-bounds records, each once, in descending key order |
| Records.ListingAfter | wiredtiger-11.1.0/wiredtiger-11.1.0/src/btree/bt_curprev.c:921-927 | A scan stopped by a prepared update has skipped nothing |
| Records.ScanComesTo | wiredtiger-11.1.0/wiredtiger-11.1.0/src/btree/bt_curprev.c:547-706 | The plain scan comes to the nearest record that is to be shown, prepared or out of bounds, and says which |
| TuneWorkers.Tuner.Tick | wiredtiger-11.1.0/evict_lru.c:1057-1198 | Keeps the worker count within the group's bounds, takes no rate over an empty interval, and computes the specification of one call |
| TuneWorkers.SettlesInTime | wiredtiger-11.1.0/evict_lru.c:1057-1198 | Wanted at every call, a fresh tuning settles after one recording call and at most max(8, max - workers + 1) measuring ones |
| TuneWorkers.OneMore | wiredtiger-11.1.0/evict_lru.c:1127-1198 | Each measuring call settles or comes one step nearer a bound that does not move |
| TuneWorkers.RateIs | wiredtiger-11.1.0/evict_lru.c:1106-1129 | The rate recorded is the whole number of pages per second since the last measurement, as long as a thousand times the pages fits 64 bits |
| TuneWorkers.MeasureKeepsBest | wiredtiger-11.1.0/evict_lru.c:1127-1198 | A measuring call settles if and only if enough points are taken and the last is not the best one with workers to spare; it then keeps the best number, and otherwise adds a worker if eviction is wanted, and asks for eight points at first and for up to eight more whenever the last is the best |
| TuneWorkers.TickRecords | wiredtiger-11.1.0/evict_lru.c:1057-1126 | A tuning does nothing within a period of its last measurement, and otherwise measures from the call on; a first call only records the progress |
| TuneWorkers.KnowsBest | wiredtiger-11.1.0/evict_lru.c:1127-1139 | Until it is stable the tuner knows the highest rate of its whole history and the number of workers at the first call that measured it |
| TuneWorkers.SettlesOnBest | wiredtiger-11.1.0/evict_lru.c:1098-1160 | A tuning that settles ends with the number of workers that first evicted the greatest whole number of pages per second of all its measuring calls, counted in pages and milliseconds, if there was eviction at all; and it has tried more workers than that, unless that is the maximum |
| TuneWorkers.SettlesLate | wiredtiger-11.1.0/evict_lru.c:1127-1160 | It settles at its first measurement or not before eight of them |
| TuneWorkers.RetuneIsFresh | wiredtiger-11.1.0/evict_lru.c:1079-1104 | A stable tuner does nothing for the retune period, then starts afresh with one worker fewer |
| Bloom.Filter.Insert | wiredtiger-11.1.0/wiredtiger-11.1.0/src/bloom/bloom.c:177-187 | Sets exactly the bits at the first hash plus each multiple below k of the second, in 64 bits, modulo the size, for arbitrary hash values |
| Bloom.SumNext | wiredtiger-11.1.0/wiredtiger-11.1.0/src/bloom/bloom.c:184-186 | Adding the second hash with wrap-around gets from one such sum to the next |
| Bloom.Filter.InmemGet | wiredtiger-11.1.0/wiredtiger-11.1.0/src/bloom/bloom.c:326-338 | Finds a key if and only if all its bits are set; a key inserted is never reported missing |
| Bloom.Filter.Finalize | wiredtiger-11.1.0/wiredtiger-11.1.0/src/bloom/bloom.c:194-231 | The chunked write stores exactly the filter's bits as records 1 to m; chunks stay byte aligned |
| Bloom.Filter.HashGet | wiredtiger-11.1.0/wiredtiger-11.1.0/src/bloom/bloom.c:252-287 | Every record number asked for exists, and the answer is found if and only if all those records are set |
| Bloom.SameAnswers | wiredtiger-11.1.0/wiredtiger-11.1.0/src/bloom/bloom.c:252-338 | A finalized filter answers every key as the filter in memory did |
| Bloom.Filter.Intersection | wiredtiger-11.1.0/wiredtiger-11.1.0/src/bloom/bloom.c:345-360 | Refuses filters of another configuration unchanged; otherwise keeps exactly the common bits, and every key inserted in both is still found |
| Bloom.OpenRecovers | wiredtiger-11.1.0/wiredtiger-11.1.0/src/bloom/bloom.c:62-78 | A filter needs at least two hash functions; opening one by its number of bits recovers the configuration it was created with if and only if items times factor fits 64 bits, which is when the product is its number of bits |
| Bloom.SetBit | wiredtiger-11.1.0/wiredtiger-11.1.0/src/include/bitstring_inline.h:65-80 | Setting a bit of a byte sets that bit and changes no other |
| Overflow.SafeExactly | wiredtiger-11.1.0/wiredtiger-11.1.0/src/btree/bt_ovfl.c:45-130 | No reader reads freed blocks in any interleaving, if and only if the cell is a value, or a key that is instantiated before its cell is discarded so that nobody begins to read the cell from then on, or is never discarded |
| Overflow.ReaderSees | wiredtiger-11.1.0/wiredtiger-11.1.0/src/btree/bt_ovfl.c:64-71 | What a reader of a value comes away with is the value if its cell was there, with its blocks in place, and the removed marker otherwise |
| Overflow.FreedOnceExactly | wiredtiger-11.1.0/wiredtiger-11.1.0/src/btree/bt_ovfl.c:118-156 | The blocks are freed at most once if and only if discards of the cell do not overlap or there is only one: the type is unpacked before the lock is taken |
| Overflow.NeverStuckExactly | wiredtiger-11.1.0/wiredtiger-11.1.0/src/btree/bt_ovfl.c:141-150 | The write lock is always released if and only if the cell is discarded at most once: a second discard finds the removed type and returns inside the locked region |
| Overflow.StuckForever | wiredtiger-11.1.0/wiredtiger-11.1.0/src/btree/bt_ovfl.c:141-150 | After such a return no reader and no discard gets the lock again |
| Overflow.StepKeeps | wiredtiger-11.1.0/wiredtiger-11.1.0/src/btree/bt_ovfl.c:45-156 | Every step of readers and discards keeps the protocol's invariant |
| Throttle.Throttle.Grant | wiredtiger-11.1.0/wiredtiger-11.1.0/bench/workgen/workgen.cxx:1236-1292 | Operations granted and budget left always make up the rate times the seconds begun, whatever the caller reports; grants never exceed it; without burst, and at the end of each second for a caller that does as told, they are its whole part. With burst the share of a division is a twentieth of the rate rounded up, less what the caller did too many so far and plus what it left undone, as far as the budget goes |
| Throttle.Throttle.Settle | wiredtiger-11.1.0/wiredtiger-11.1.0/bench/workgen/workgen.cxx:1263-1274 | Whatever the signed 64-bit account of operations done too many or too few, a division and the account after it make up the division's share and the account before it; the account is cleared or the division goes to paying it off |
| Throttle.NextSpent | wiredtiger-11.1.0/wiredtiger-11.1.0/bench/workgen/workgen.cxx:1206-1216 | Twenty shares are enough for a second, so an obedient caller leaves less than one operation unspent |
| Throttle.NextBalanced | wiredtiger-11.1.0/wiredtiger-11.1.0/bench/workgen/workgen.cxx:1280-1289 | Every twentieth division pays in one second's operations |

## Left out

- Statistics, verbose output, cache dumps, clocks, sleeps and condition waits; time is an input.
- The tree walk itself: `EvictQueue` is given the pages it meets, and only not-found and end are modelled of its results.
- Scores (`__evict_entry_priority`) and the filters of `__evict_walk_tree` before its push: a page arrives with its score and whether it is wanted.
- qsort: only that it returns a sorted permutation is used, and any such permutation is allowed.
- `EvictProtocol` makes one step of unlocking a reference and decrementing its tree's busy count at the end of an eviction; the program does the second a little later, which only delays the thread waiting for the count.
- What happens after a page has been freed while it was still queued is undefined, so a run of `EvictProtocol` ends there.
- A failed walk-point clear lowers the disabled count in one step: no other thread can change the count of that tree then, because its one request has not returned.
- A hop of a cursor between children, and the acquisition of a hazard pointer, are one step each.
- Weak memory ordering: every lock region, compare-and-swap or pointer read is one atomic step.
- Forced evictions through `__wt_page_release_evict` are in the protocol as evictions that count themselves busy after locking; exclusive access is not claimed over them, because the test against a disabled tree is in a caller outside these files.
- The aggressive and empty scores of the cache are inputs.
- Reconciliation, page splits, the review of a page and the block manager are known by contract only: reconciliation and splits keep the records, and a failed one changes nothing.
- EvictPage.Ref.Evict: of a root page and of a dead tree only state, page and address after the eviction are stated, not what the reference denotes.
- Hash functions, the page cache and the bulk cursor behind a Bloom filter; allocation failures.
- Fixed-length column stores, cursors positioned by an upper bound, and moving forwards.
- Transaction visibility is one answer per record and snapshot, fixed while a page is scanned; a page does not change during a scan of it.
- SkipList.Finger.SearchLevels: stands for the row-store search `__wt_search_insert` too, whose key comparisons are modelled as comparisons of integers.
- SkipList.Finger.SkipPrev: ends once inserts cease; with inserts going on for ever it may restart for ever, as the program may.
- ColumnScan.VarCursor.VarPrev: takes from the program's comment that no update restored by rollback-to-stable sits over a globally visible on-disk value; `ColumnScan.UniformExactly` says when cells read the same without that.
- The skip lists behind `__col_insert_search_match` and `__col_insert_search_lt` are searched as sorted lists.
- Bloom.Filter.Insert: needs at least one bit; a count times factor that is a multiple of 2 to the 64 gives none, and the program then divides by zero.
- Throttle.Throttle.Grant: doubles are reals, the rate is below 2 to the 63, and the random part of each sleep is left out with the sleeps.
- TuneWorkers.Tuner.Tick: the clock does not run backwards, and the bounds of the thread group do not change.
- Compaction, import, tiered storage, memory mapping and everything else of the repository.
